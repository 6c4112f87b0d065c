# Neutron node: a verified model

This project models the consensus and bookkeeping core of a Neutron node, a
Bitcoin and PPCoin descendant, and proves properties of it with Dafny 4.11.
`dafny verify dfyconfig.toml` checks everything.

Code that works by changing things in place is modelled as methods, with loops
and classes as in the original, each proved against a function on plain values;
the theorems are lemmas about those functions.

- **Address manager** (`AddrTables`, `TriedChoice`, `AddrInvariant`, `AddrMan`,
  `AddrCheck`, `AddrDisk`, `AddrRoundTrip`, `AddrRebuild`, `AddrBuckets`,
  `AddrEffects`): one set of addresses in six redundant structures. Hashing,
  address groups, routability and random choices are arbitrary. The invariant
  covers what the authors' runtime check demands and that a tried entry sits in
  the bucket its address hashes to; it is kept by every run, and saving and
  loading preserves the book. What each call does to an address, and which
  buckets are open to it, is stated apart from the functions that compute it.
- **Transaction index** (`Transactions`, `TxIndex`, `Connecting`,
  `ConnectBlock`, `IndexSteps`, `IndexUndo`, `IndexTolerance`, `Supply`,
  `Accepting`, `IndexFailures`, `IndexChecks`, `Ledger`, `LedgerFailures`,
  `Emission`): fetching, spending and giving back outputs through a queue of
  changes. Signatures, minimum fees and block files are arbitrary functions. The
  database and the queue together stand for one index; connecting is a sequence
  of steps on it, disconnecting undoes them, and the value of all unspent
  outputs moves with the money supply. A block is connected *with tolerance*
  when the transaction checks are skipped: an input that is spent already then
  ends the spending of its transaction without an error, and transactions may be
  overwritten. That is how a reorganisation connects (src/main.cpp:1933), and
  also a direct attachment, because the number of postponed blocks, -1, takes
  the place of the flag (src/main.cpp:1987); the results without tolerance are
  about `ConnectBlock` with that flag false, which no caller passes. A postponed
  block is *merely checked*, because the flag for a reorganisation takes the
  place of the one for a check. What holds without tolerance and without such
  blocks is proved, and where it fails with them the exact condition is.
- **Best chain** (`ChainTree`, `BestChain`, `Relinking`, `ChainRuns`,
  `ChainSuccess`, `ChainFailures`, `ChainState`): the tree of headers, the fork
  search, reorganisations and postponed reconnects. Every database and block
  check may fail at every point; when a call succeeds all the same, and with
  which tip, is said of the chains alone.
- **Synchronised checkpoints** (`SyncCheckpoint`), **stake modifier selection**
  (`StakeModifier`, `StakeChoice`), **block templates** (`TemplatePool`,
  `BlockTemplate`, `TemplateQueue`, `TemplateRules`), **large numbers**
  (`Limbs`, `BaseUint`, `Compact`), **Merkle branches** (`Merkle`), **Base58**
  (`Base58`) and **page locks** (`PageLocks`).

Where the code differs from its comments or from what it is for, the model
follows the code:

- Erasing the entry of a disconnected transaction is described as harmless if
  the transaction had been overwritten before. The old entry is lost instead;
  `IndexFailures.EntryIsLost` is such a block, and `IndexUndo.RestoredIffFresh`
  and `IndexTolerance.RestoredIff` give the exact condition.
- The entry to be driven out of a full tried bucket is meant to be the least
  recently tried one looked at. The code compares the times of the last success,
  and the place it notes can hold another entry after the exchange
  (`TriedChoice.NamesOldestIff`, `TriedChoice.NamesAnother`).
- Rebuilding the new table from a file with another number of buckets can
  overfill a bucket (`AddrRebuild.CrowdOverflows`; `AddrRebuild.RebuildsIff`).
- Blocks connected with tolerance can change the unspent value by something else
  than the money supply (`IndexFailures.OverwriteUnbalances`,
  `IndexFailures.RestakeExceedsSubsidy`; `Supply.BooksBalanceIff`). Overwriting
  takes a transaction that repeats an earlier one. For a coinbase, accepting a
  block demands that the script starts with the block's height
  (src/main.cpp:2493-2498), which confines a repeat to blocks of one height.
- A merely checked block moves the tip but leaves the index behind
  (`LedgerFailures.CheckedFallsBehind`; `Ledger.ReplayedIff`).
- `SetBestChain` records the hash of the block it was called for even when the
  tip falls back to a lower block. `ChainRuns.AddTraces` says exactly when
  forward links go wrong by that, and `ChainFailures.LinksBreakOnMismatch` is a
  run in which they do.
- Multiplying a number by itself in place gives zero
  (`BaseUint.BaseUint.MulAssign`).

Pointers into the block tree are hashes; null is `None`. Amounts, heights and
times are mathematical integers, digits of large numbers and the 64-bit
intermediates of their loops have their widths written out.

## Model

| member | source | states |
|---|---|---|
| AddrMan.AddrMan.constructor | src/addrman.h:381-393 | A new manager has empty tables, and they are consistent. |
| AddrMan.AddrMan.Find | src/addrman.cpp:83-94 | The id recorded for an address, or none. |
| AddrMan.AddrMan.CreateEntry | src/addrman.cpp:96-106 | A new entry is put in all of mapInfo, mapAddr and vRandom, in mutual agreement. |
| AddrMan.AddrMan.Swap | src/addrman.cpp:108-126 | Two places of vRandom change hands together with the positions recorded in their entries. |
| AddrMan.AddrMan.SelectTried | src/addrman.cpp:128-150 | The bucket afterwards is the old one with each round's place exchanged with a drawn one from there on, the other buckets are untouched, and the answer is the place the winning round drew from, or -1 for an empty bucket. |
| TriedChoice.NamesOldestIff | src/addrman.cpp:135-149 | The answer names the winning round's entry, the first with the oldest success of those looked at, exactly if that round drew the place it had already, because the place is noted before the exchange; if no two entries agree in that time, no other answer is as old. |
| TriedChoice.NamesAnother | src/addrman.cpp:135-149 | With two entries and one draw from further back the younger one is named. |
| AddrMan.AddrMan.Release | src/addrman.cpp:161-176 | One reference of an entry goes, and the entry with its last reference, from every table at once. |
| AddrMan.AddrMan.ShrinkNew | src/addrman.cpp:152-204 | The victim is a terrible entry of the bucket if there is one, otherwise the oldest of those drawn; it alone loses this reference. |
| AddrMan.AddrMan.MakeTriedEntry | src/addrman.cpp:206-262 | The entry leaves every new bucket and takes a tried slot; the one it drives out of a full bucket returns to a new bucket. |
| AddrMan.AddrMan.FindNewBucket | src/addrman.cpp:290-303 | The circular search from a random start finds a bucket holding the entry exactly if there is one. |
| AddrMan.AddrMan.Good_ | src/addrman.cpp:264-313 | Takes consistent tables to consistent tables, as the transition of the same name says; the exit for an entry in no bucket is never taken. |
| AddrMan.AddrMan.Add_ | src/addrman.cpp:315-371 | Takes consistent tables to consistent tables, and answers true exactly for a routable address not known before; a known one is given another bucket exactly if its entry admits that and a draw out of 2^n, n being its references so far, comes out 0. |
| AddrMan.AddrMan.Attempt_ | src/addrman.cpp:373-390 | Counts one attempt for the address, if its entry is the very service, and keeps the tables consistent. |
| AddrMan.AddrMan.Connected_ | src/addrman.cpp:512-531 | Moves only the time of the entry, at most once in twenty minutes, and keeps the tables consistent. |
| AddrMan.AddrMan.GetAddr_ | src/addrman.cpp:496-510 | The answer is the first places of vRandom after a partial shuffle, which keeps the tables consistent. |
| AddrBuckets.SourceReaches32 | src/addrman.cpp:26-38 | All addresses announced by the sources of one group get into no more than 32 new buckets, whatever the hash. |
| AddrBuckets.GroupReaches4 | src/addrman.cpp:12-24 | All addresses of one group share no more than 4 tried buckets. |
| AddrBuckets.GroupsDecide | src/addrman.cpp:26-38 | A new bucket depends on the key and the groups of address and source only. |
| AddrBuckets.AllMatter | src/addrman.cpp:12-38 | Each of key, port and the two groups makes a difference and in its own place: with hashes that pass one byte through, each of them is seen in the bucket. |
| AddrEffects.AddedIs | src/addrman.cpp:353-369 | A new routable address ends up in exactly one new bucket, that of its group and its source's, seen at the announced time less the penalty, with one reference. |
| AddrEffects.RefreshedIs | src/addrman.cpp:324-333 | The recorded time of a known address moves exactly if the sighting has a time and none was recorded, or it is later by more than the penalty and an hour, a day for sightings a day old; services are only added. |
| AddrEffects.KnownIs | src/addrman.cpp:322-369 | A known address keeps its buckets and gets the one of its group and the announcement's source besides exactly if the sighting is news, it is untried with fewer than 4 references, and the draw admits it; nothing else of it changes. |
| AddrEffects.GoodPlaces | src/addrman.cpp:206-313 | A good address leaves all new buckets for the last place, or the drawn one, of its tried bucket; the entry driven out is then in its own new bucket alone, or in the one given up if that is full. |
| AddrEffects.AttemptIs | src/addrman.cpp:373-390 | An attempt changes the time and the number of attempts of the very service and nothing else. |
| AddrEffects.ConnectedIs | src/addrman.cpp:512-531 | A connection changes the time of the very service, if it is more than 1200 seconds old, and nothing else. |
| AddrEffects.AnswerSizeIs | src/addrman.cpp:496-500 | An answer has 23 of a hundred known addresses, rounded down, and at most 2500. |
| AddrEffects.TerribleIs | src/addrman.cpp:40-58 | What makes an entry terrible, in seconds and counts. |
| AddrEffects.GoodIsNotTerrible | src/addrman.cpp:40-58 | Within a week of a success an entry is not terrible, whatever fails after it. |
| AddrInvariant.ApplyKeepsValid | src/addrman.cpp:437-493 | Every operation, whatever its random choices, takes tables in which all six structures agree to such tables. |
| AddrInvariant.RunKeepsValid | src/addrman.cpp:437-493 | So does every run of operations from any consistent state; with clock readings in order the stamps stay in order too. |
| AddrInvariant.ApplyKeepsStamped | src/addrman.cpp:461-462 | The stamps that the consistency check demands survive an operation exactly if its clock reading is usable. |
| AddrInvariant.GoodStamps | src/addrman.cpp:281-285 | A known address that is marked good ends up tried with the time of the call, and no other entry becomes tried. |
| AddrInvariant.SomeBucketHolds | src/addrman.cpp:305-309 | An untried entry of consistent tables is in some new bucket. |
| AddrInvariant.SizeIsBounded | src/addrman.h:95-120 | The tables never hold more than 64 times 256 new and 64 times 64 tried entries, and vRandom counts exactly those. |
| AddrInvariant.AnswerIsDistinct | src/addrman.cpp:496-510 | No answer of GetAddr_ names an address twice. |
| AddrCheck.Check | src/addrman.cpp:437-493 | The runtime check with its striking of sets and counts answers 0 exactly if a closed-form predicate on the tables holds. |
| AddrCheck.StrikeTried | src/addrman.cpp:468-476 | Striking tried slots off a set succeeds exactly if no slot repeats and each id is in the set. |
| AddrCheck.StrikeNew | src/addrman.cpp:478-487 | Counting references down succeeds exactly if no id is in more buckets than its count. |
| AddrCheck.ValidPasses | src/addrman.cpp:437-493 | The invariant of this model is enough for the authors' own check to pass. |
| AddrCheck.PassingIsConsistent | src/addrman.cpp:437-493 | Passing the check forces vRandom and the entries to be inverse in both directions. |
| AddrCheck.CheckAndRest | src/addrman.cpp:437-493 | The invariant with its stamps is equivalent to the check together with what the check never looks at: number and sizes of buckets, home buckets, missing or stray addresses, and the id counter. |
| AddrDisk.Write | src/addrman.h:280-318 | The writer's loops produce the file that the specification function describes. |
| AddrDisk.Read | src/addrman.h:319-378 | The reader's loops rebuild the tables that the specification function describes, from any well-formed file. |
| AddrRoundTrip.SoundFileLoads | src/addrman.h:319-378 | Every file that meets the stated soundness conditions loads to consistent tables, without a lost tried record. |
| AddrRoundTrip.SavedIsSound | src/addrman.h:280-318 | Saving consistent tables gives such a file. |
| AddrRoundTrip.RoundTrip | src/addrman.h:249-381 | Saving and loading gives the same key and counts, every entry back whole but for the time of its last try, the same addresses in every new and every tried bucket, and loses nothing; with sound stamps the loaded tables pass the runtime check. |
| AddrRebuild.RebuildsIff | src/addrman.h:326-375 | A file saved with another number of buckets loads to consistent tables if and only if no address comes twice among the entries kept, no new bucket is given more than 64 entries, and the saved lists name only entries that exist; the kept entries then come back whole. |
| AddrRebuild.CrowdOverflows | src/addrman.h:335-339 | A file of 65 addresses that hash alike puts all of them in one new bucket and does not. |
| BaseUint.BaseUint.ShiftLeft | src/arith_uint256.cpp:21-36 | Left shift is multiplication by a power of two modulo 2^(32*WIDTH), for every width. |
| BaseUint.BaseUint.ShiftRight | src/arith_uint256.cpp:38-53 | Right shift is floor division by a power of two. |
| BaseUint.BaseUint.AddAssign | src/arith_uint256.h:135-145 | Addition with carries is addition modulo 2^(32*WIDTH). |
| BaseUint.BaseUint.Increment | src/arith_uint256.h:173-180 | Adds one modulo 2^(32*WIDTH). |
| BaseUint.BaseUint.Decrement | src/arith_uint256.h:190-197 | Subtracts one modulo 2^(32*WIDTH). |
| BaseUint.BaseUint.Negate | src/arith_uint256.h:77-84 | Complement and increment is negation modulo 2^(32*WIDTH). |
| BaseUint.BaseUint.SubAssign | src/arith_uint256.h:147-151 | Adding the negation is subtraction, exact when nothing is borrowed. |
| BaseUint.BaseUint.MulAssignSmall | src/arith_uint256.cpp:55-65 | Multiplication by one digit modulo 2^(32*WIDTH); no 64-bit intermediate overflows. |
| BaseUint.BaseUint.MulAssign | src/arith_uint256.cpp:67-81 | Long multiplication modulo 2^(32*WIDTH) for distinct operands, and zero when an operand is multiplied by itself in place. |
| BaseUint.BaseUint.CompareTo | src/arith_uint256.cpp:109-119 | The sign of the comparison of the two values. |
| BaseUint.BaseUint.Bits | src/arith_uint256.cpp:171-184 | The position of the highest set bit plus one, or zero. |
| BaseUint.BaseUint.DivAssign | src/arith_uint256.cpp:83-107 | Long division: the floor quotient for a divisor other than zero, the error exit exactly for zero. |
| BaseUint.BaseUint.SubtractAndShift | src/arith_uint256.cpp:97-106 | The shift-and-subtract loop turns an aligned divisor into quotient and remainder; the dividend stays below twice the divisor. |
| BaseUint.ProductFits | src/arith_uint256.cpp:59-62 | Carry plus digit plus product of digits fits in 64 bits, and its high part in one digit. |
| Compact.SetCompact | src/arith_uint256.cpp:203-222 | Decodes a compact number, with sign and overflow flags as the specification functions say. |
| Compact.GetCompact | src/arith_uint256.cpp:224-245 | Encodes a 256-bit number; both assertions in it hold. |
| Compact.ScaledOverflow | src/arith_uint256.cpp:217-220 | The three comparisons are true exactly for the codes whose value does not fit in 256 bits. |
| Compact.EncodeTruncates | src/arith_uint256.cpp:203-245 | Decoding a code never exceeds the number, loses less than one part in 2^15, and has the same code. |
| Compact.EncodeMonotone | src/arith_uint256.cpp:203-245 | Encoding and decoding keep the order of numbers. |
| Compact.CanonicalRoundTrip | src/arith_uint256.cpp:203-245 | Encoding the decoded value gives the code back exactly for canonical codes. |
| Merkle.Block.BuildMerkleTree | src/main.h:933-957 | Builds the levels of the tree, the last hash doubled in odd levels, and returns its root. |
| Merkle.Block.GetMerkleBranch | src/main.h:959-976 | Returns the siblings on the way from a leaf to the root. |
| Merkle.Block.CheckMerkleBranch | src/main.h:978-995 | Hashes a leaf up along a branch, or gives zero for the index -1. |
| Merkle.BranchChecks | src/main.h:933-995 | The branch of every leaf of every transaction list leads to the root. |
| Merkle.CheckedBranchIsGenuine | src/main.h:978-995 | With an injective pair hash, a branch of the tree's depth that leads to the root starts at that leaf and is its branch. |
| Merkle.BranchProvesLeaf | src/main.h:978-995 | Both directions together: checking is the same as being the leaf with its own branch. |
| Merkle.RootOfHalves | src/main.h:933-957 | The root of two halves of 2^d hashes each is the hash of their roots, the left one first. |
| Merkle.OddCountsTwice | src/main.h:943-951 | An odd list has the root of the list with its last hash repeated. |
| Merkle.RootOfPairs | src/main.h:943-951 | An even list has the root of its neighbours' hashes. |
| Base58.EncodeBase58 | src/base58.h:28-67 | The text is one digit for each leading zero byte followed by the base-58 digits of the number. |
| Base58.DecodeBase58 | src/base58.h:76-120 | Succeeds exactly on text made of digits with white space around, and returns the bytes they stand for. |
| Base58.DecodeEncode | src/base58.h:28-120 | Decoding the text of any byte string, white space around it or not, gives the bytes back, leading zeros and empty input included. |
| Base58.EncodeDecode | src/base58.h:28-120 | Encoding what a text decodes to gives the text back without its white space. |
| Base58.DecodesIffPadded | src/base58.h:88-106 | A text decodes if and only if it is digits of the alphabet with white space around them. |
| Base58.ChangeOfBase | src/base58.h:28-120 | Changing the base of digits, leading zeros counted apart, and changing back is the identity, for any two bases. |
| Base58.SignByteTrimmed | src/base58.h:107-109 | Without its sign byte the big-number library's byte form is the plain base-256 digits. |
| Transactions.CheckTransaction | src/main.cpp:418-479 | Accepts exactly the transactions of bounded size with distinct inputs that are set, outputs and running total in range, and a coinbase script of 2 to 100 bytes. |
| Transactions.CheckBlock | src/main.cpp:2321-2402 | Accepts exactly the blocks with one coinbase in front, a well-placed coinstake, distinct transaction hashes and few enough signature operations. |
| Transactions.HasUniqueTx | src/main.cpp:2382-2391 | Comparing the size of the set of hashes with the number of transactions finds every duplicate. |
| TxIndex.FetchInputs | src/main.cpp:1131-1217 | Finds the entry and transaction behind every input, from the queued changes, the index or the memory pool; fails exactly if one is missing or an index is out of range, and says which. |
| Connecting.FetchedIs | src/main.cpp:1143-1189 | In a block the queued entry counts before the one in the index and there must be one; elsewhere a transaction without an entry comes from the memory pool with nothing spent. |
| TxIndex.IsTooYoung | src/main.cpp:1305-1315 | The walk over the youngest blocks finds the position of an immature output. |
| TxIndex.ConnectInputs | src/main.cpp:1276-1408 | The outcome, the queued changes left behind even by a failure, and the already-used flag are those of the specification. |
| Connecting.ConnectedIff | src/main.cpp:1276-1408 | A transaction other than a coinbase is connected exactly if every input names an output that is there, unspent and named once, of a transaction that is not younger and, if it must be, not in a block less than the maturity below the top; values and their sums are amounts of money; signatures verify unless the block is old; and, but for a coinstake, inputs less outputs are at least 0, at least the minimum fee and in range. It counts as using a spent output exactly if the first input that is not free is otherwise in order. |
| TxIndex.DisconnectInputs | src/main.cpp:1095-1129 | Marks the outputs unspent and erases the entry; a failure leaves what was done before it. |
| ConnectBlock.CalculateBlockAmounts | src/main.cpp:1473-1582 | The amounts and queued changes of a block under every combination of the flags. |
| ConnectBlock.ConnectBlock | src/main.cpp:1584-1663 | Accepts a block exactly if every check passes, records mint and money supply, and then writes the queued changes and nothing else; a rejected or merely checked block leaves the index alone. |
| Accepting.AddTxIff | src/main.cpp:1494-1578 | A transaction is added to its block's amounts exactly if it overwrites nothing unspent or may, the signature operations stay within the limit, and it is a coinbase, or its inputs are in order, with tolerance up to a spent one. |
| Accepting.AcceptableIff | src/main.cpp:1584-1663 | A block with amounts is accepted exactly if it passes the other checks and, above height 17901, its coinbase pays out no more than the fees, or its coinstake gains no more than subsidy and fees and the payments are in order. |
| Accepting.MintedIs | src/main.cpp:1607 | What a block mints is what its coinbase pays out, or what its coinstake gains. |
| Accepting.WorkRaisesNothing | src/main.cpp:1628-1641 | Above height 17901 an accepted block without a coinstake raises the unspent value by no more than its gap, without tolerance not at all. |
| ConnectBlock.WriteQueued | src/main.cpp:1829-1834 | Writing the queued entries in any order gives the index overlaid with the queue. |
| ConnectBlock.DisconnectBlock | src/main.cpp:1449-1454 | Disconnects the transactions from the last to the first, stopping at a failure. |
| IndexSteps.SpendIsMark | src/main.cpp:1340-1376 | Spending through the queue is spending in the one index that database and queue stand for, and every output spent was unspent. |
| IndexSteps.AmountsAreSteps | src/main.cpp:1494-1578 | Connecting a block, with or without tolerance, is connecting its transactions one after the other in that index, each spending its inputs up to the first that is spent already; the index stays in agreement with the block files. |
| IndexUndo.DisconnectAfterConnect | src/main.cpp:1449-1454 | Without tolerance, disconnecting a block right after connecting it succeeds and gives back the old index without the entries the block overwrote, for outputs spent within the block and several inputs from one parent alike. |
| IndexUndo.RestoredIffFresh | src/main.cpp:1123-1127 | Without tolerance the index is restored exactly if no transaction of the block was in it before. |
| IndexTolerance.RestoredIff | src/main.cpp:1562-1575 | With or without tolerance, disconnecting a block right after connecting it restores the index if and only if no transaction of the block was in it and every output of it that the block names was unspent. |
| IndexFailures.EntryIsLost | src/main.cpp:1123-1127 | A block that repeats a coinbase whose outputs are all spent is connected, and disconnecting it loses the entry of the first one. |
| IndexFailures.RestakeIsNotRestored | src/main.cpp:1562-1575 | With tolerance, disconnecting a block that names a spent output leaves that output unspent. |
| IndexUndo.LaterAreClosed | src/main.cpp:1507-1514 | Without tolerance, the overwrite check and unique hashes keep the entries of later transactions of the block unspendable while earlier ones are connected. |
| IndexUndo.InputsElsewhere | src/main.cpp:1093-1121 | A transaction of a block connected without tolerance never spends from itself or from a later one. |
| Supply.SupplyIsUnspentValue | src/main.cpp:1606-1626 | Connecting a block without tolerance changes the value of all unspent outputs by exactly what it adds to the money supply. |
| Supply.BooksBalanceIff | src/main.cpp:1496-1575 | For every transaction, with or without tolerance, the unspent value moves by outputs less inputs if and only if the value of the inputs tolerated though spent equals what was still unspent in the entry overwritten. |
| Supply.SupplyMissesByGap | src/main.cpp:1606-1626 | With tolerance the unspent value moves by what the money supply does plus the sum of those differences over the block, so the two agree if and only if that sum is zero. |
| IndexFailures.OverwriteUnbalances | src/main.cpp:1496-1514 | With tolerance a block that repeats an unspent coinbase adds its 1000 coins to the money supply a second time, while the unspent value stays. |
| Supply.StakeAmounts | src/main.cpp:1551-1560 | In a proof-of-stake block, with or without tolerance, outputs minus inputs is the stake reward minus the fees. |
| Supply.StakeRaisesBySubsidy | src/main.cpp:1643-1663 | An accepted proof-of-stake block above height 17901 raises the unspent value by at most the subsidy of its height plus the block's sum of those differences, whatever the fees; without tolerance that sum is zero. |
| IndexFailures.RestakeExceedsSubsidy | src/main.cpp:1562-1575 | With tolerance a proof-of-stake block at height 20000 that stakes a spent output again is accepted and raises the unspent value by 1000 coins, more than the subsidy. |
| Ledger.HistoryForgotten | src/main.cpp:1449-1454 | After any run of blocks connected, merely checked as a postponed block is, and disconnected, with new transactions that unless connected without tolerance name no spent output of the index, the index is what attaching the present chain alone gives. |
| Ledger.SupplyFollows | src/main.cpp:1608-1626 | Along every such run the money supply of the tip moves with the value of all unspent outputs, up to the sums of differences of the blocks connected with tolerance and to all that the merely checked blocks add. |
| Ledger.DisconnectConsistent | src/main.cpp:1449-1454 | Disconnecting a connected tip succeeds and returns to the index before it; disconnecting a merely checked one succeeds exactly if every output it names is in the index, and changes nothing there. |
| IndexChecks.CheckedIff | src/main.cpp:1473-1582 | If nothing can be read at the one position a check gives to all transactions of a block, the check passes if and only if connecting with tolerance would and no transaction of the block spends from an earlier one; the amounts are then the same. |
| IndexChecks.UndoOfChecked | src/main.cpp:1095-1129 | Disconnecting a block of new transactions that was never written succeeds if and only if every output it names is in the index, and then changes nothing. |
| Ledger.ReplayedIff | src/main.cpp:1826-1835 | After any run the index is what writing every block of the present chain gives if and only if no block of it was merely checked that could have been written at its time. |
| Ledger.ReplayedIffWritten | src/main.cpp:2080-2084 | Where nothing can be read at the checks' positions, that is: if and only if no block of the chain was merely checked. |
| LedgerFailures.CheckedFallsBehind | src/main.cpp:1985-1990 | A block of one coinbase worth 1000 coins that is merely checked becomes part of the chain and of the money supply, and the index stays empty. |
| Emission.NonIncreasing | src/main.cpp:944-955 | The subsidy never grows from one height to the next from 13500 on, halving boundaries and truncation included. |
| Emission.SubsidyMonotone | src/main.cpp:944-955 | So it never grows over any distance, and is at most 40 coins. |
| Emission.SubsidyEnds | src/main.cpp:950-955 | It is zero from height 32,000,000. |
| Emission.NoOverflow | src/main.cpp:954 | No intermediate value of the reward leaves 64 bits. |
| Emission.EmissionBound | src/main.cpp:926-959 | From height 13500 on, any range of heights creates at most 60,000,000 coins in all, below the 80,000,000 that halving alone would suggest. |
| Emission.FixedTotal | src/main.cpp:931-946 | The heights below 13500 create 515,000 coins by stake. |
| Emission.AllStake | src/main.cpp:931-959 | All heights together create at most 60,515,000 coins by stake. |
| Emission.AllWork | src/main.cpp:894-929 | All heights together create 1,533,950 coins by work, none of them from height 4000 on, fees apart. |
| ChainTree.FindFork | src/main.cpp:1858-1876 | The walk returns the highest common block of two branches; its first error exit is never taken, its second exactly if the branches have different roots. |
| ChainTree.ForkIsHighest | src/main.cpp:1860-1876 | The fork is an ancestor of both blocks, and every common ancestor is an ancestor of the fork. |
| ChainTree.ForkExists | src/main.cpp:1870-1875 | There is a fork exactly if both chains start from the same root. |
| ChainTree.TrustIsSum | src/main.cpp:2261 | The recorded trust of a block is the sum of the block trusts up to it, modulo 2^256. |
| ChainTree.BlockTrustIs | src/main.cpp:2533-2545 | A block's trust times its target plus one is 2^256 but for the remainder, and 0 without a positive target. |
| Relinking.ReorganizedTraces | src/main.cpp:1949-1963 | Relinking takes a state whose forward links trace exactly the old tip's chain to one whose links trace exactly the new tip's. |
| Relinking.MainChainIsAncestors | src/main.h:1221-1224 | In such a state the main-chain test holds exactly for the best block and its ancestors. |
| Relinking.OneRootHasForks | src/main.cpp:1863-1875 | Under one genesis block neither error exit of the fork search is reachable. |
| ChainState.ChainState.Reorganize | src/main.cpp:1854-1979 | Moves both branches and relinks in memory, or leaves the links alone if anything fails. |
| ChainState.ChainState.SetBestChainInner | src/main.cpp:1982-2006 | Attaches one block: the link is set exactly if connecting and committing succeed, and only a failed connect is recorded as invalid. |
| ChainState.ChainState.SetBestChain | src/main.cpp:2008-2103 | Goes through the direct, the reorganising and the postponing case with every failure exit, for any known block above the genesis block, whatever its trust, and leaves the state of the specification. |
| ChainSuccess.SetBestSucceeds | src/main.cpp:2008-2103 | The call succeeds exactly if its transaction begins and either, on top of the recorded hash, the block attaches and is committed, or every block that only the old chain has can be disconnected, every block that only the new chain has up to the lowest postponed one connects, and that is committed. |
| ChainSuccess.SetBestReaches | src/main.cpp:2062-2085 | After a success the tip is the candidate, or the block below the first postponed one that does not attach; an interrupted loop leaves the candidate as the tip. |
| ChainSuccess.SetBestFails | src/main.cpp:2008-2060 | A failure changes nothing but the greatest invalid trust, which takes in the candidate's exactly if it could not be attached or moved to. |
| ChainState.ChainState.AddToBlockIndex | src/main.cpp:2237-2319 | Adds a block on a known one with its height and trust and makes it the best if it has more trust; the state stays valid and never gets worse. |
| ChainSuccess.AddBlockSucceeds | src/main.cpp:2237-2319 | A block is accepted exactly if it is new, its modifier is found, it is stored, and, with more trust than the best block, it is accepted as the best. |
| ChainState.ChainState.InvalidChainFound | src/main.cpp:1065-1090 | Raises the best invalid trust and never follows a missing pointer. |
| ChainState.ChainState.Postpone | src/main.cpp:2030-2041 | The loop puts off exactly the blocks whose predecessor already has more trust than the best block. |
| ChainState.ChainState.ConnectFurther | src/main.cpp:2062-2085 | The postponed blocks are attached lowest first until the first failure, with the tip each kind of failure leaves. |
| ChainRuns.SetBestKeeps | src/main.cpp:2008-2103 | Whatever fails and whatever trust the candidate has, the tree and the invariant stay; on success the recorded hash is the candidate's and the tip is the candidate or has strictly more trust than the old one. |
| ChainRuns.RunKeeps | src/checkpoints.cpp:209-227 | So over any run of added blocks and of blocks selected by checkpoints, whatever fails in it. |
| ChainSuccess.RunConnects | src/main.cpp:1854-2103 | Over any run, every block of the best chain above the genesis block was connected or attached by a call that committed it, unless some call built on a recorded hash that is not the best block's or had its loop interrupted. |
| ChainRuns.SetBestImproves | src/main.cpp:2008-2103 | For a candidate of more trust the call reports success exactly if the best block changed, and then to one of strictly more trust. |
| ChainRuns.AddImproves | src/main.cpp:2303-2307 | One call leaves the best block or moves it to one of strictly greater trust, even when a postponed block fails and the tip falls back. |
| ChainRuns.RunImproves | src/main.cpp:2303-2307 | The same over any run of added blocks, whatever fails in it. |
| ChainRuns.BestTrustIsSum | src/main.cpp:2261 | After any run of added and selected blocks the recorded best trust is the sum of the block trusts from the genesis block to the best block, modulo 2^256. |
| ChainRuns.AttachTraces | src/main.cpp:2062-2085 | The links trace the returned tip's chain unless the loop was interrupted by a read or transaction failure, and then they do not. |
| ChainRuns.AddTraces | src/main.cpp:2025-2100 | From links that trace the best chain, a call leads to such links if and only if it neither builds on a recorded best hash that is not the best block nor is interrupted. |
| ChainRuns.ApplyTraces | src/main.cpp:2025-2100 | The same for a block selected by a checkpoint. |
| ChainFailures.LinksBreakOnMismatch | src/main.cpp:2080-2101 | Three calls from the genesis block, the last of which succeeds in everything, leave an ancestor of the best block outside the main chain: the second fell back after its hash was recorded. |
| ChainFailures.LinksBreakOnUnread | src/main.cpp:2066-2070 | Two calls do so when a postponed block cannot be read back. |
| ChainRuns.RunTraces | src/main.h:1221-1224 | Over a run of added and selected blocks without such a call, being in the main chain is being the best block or an ancestor of it. |
| ChainRuns.RunFindsGreatest | src/main.cpp:2303-2307 | If nothing fails in a run of added blocks, no known block has more trust than the best one. |
| SyncCheckpoint.SyncCheckpoints.ValidateSyncCheckpoint | src/checkpoints.cpp:122-175 | True exactly for a strictly higher descendant; a hash is recorded as invalid exactly if neither block descends from the other. |
| SyncCheckpoint.SyncCheckpoints.ProcessSyncCheckpoint | src/checkpoints.cpp:442-492 | The four hashes after a message, for every failure exit. |
| SyncCheckpoint.SyncCheckpoints.AcceptPendingSyncCheckpoint | src/checkpoints.cpp:195-254 | The four hashes after trying the pending checkpoint, for every failure exit. |
| SyncCheckpoint.ProcessedIs | src/checkpoints.cpp:442-492 | A message moves the checkpoint exactly if it is signed, names a higher descendant that is or becomes part of the best chain, and is written; which hash is pending and which invalid in every other case. |
| SyncCheckpoint.PendingIs | src/checkpoints.cpp:195-254 | The same for the pending checkpoint, which is dropped exactly if it is known and no advance, or taken over. |
| SyncCheckpoint.SyncCheckpoints.CheckSync | src/checkpoints.cpp:270-295 | Which blocks pass: descendants above the checkpoint, the checkpoint itself at its height, known blocks below. |
| SyncCheckpoint.PassesIff | src/checkpoints.cpp:270-295 | A new block passes exactly on top of the checkpoint or a descendant of it, a known one exactly if it descends from the checkpoint or is lower. |
| SyncCheckpoint.SyncCheckpoints.TraceBack | src/checkpoints.cpp:139-143 | The walk back ends at the ancestor of the given height and its null exit is never taken. |
| SyncCheckpoint.ApplyAdvances | src/checkpoints.cpp:177-254 | Every step keeps the checkpoint or moves it to a strictly higher descendant. |
| SyncCheckpoint.CheckpointsAdvance | src/checkpoints.cpp:122-254 | Any checkpoint held in a run is an ancestor of every later one, strictly lower if they differ. |
| SyncCheckpoint.PassingDescendsFromAll | src/checkpoints.cpp:270-295 | A block above the checkpoint that passes descends from every checkpoint held so far in the run. |
| StakeModifier.GetSelectionInterval | src/kernel.cpp:54-63 | The length of all 64 sections. |
| StakeChoice.SectionIs | src/kernel.cpp:47-52 | Section n lasts 37800 / (189 - 2n) seconds, rounded down: 200 for the first, 600 for the last. |
| StakeChoice.IntervalIs | src/kernel.cpp:54-63 | All sections together last 21135 seconds. |
| StakeModifier.SelectBlockFromCandidates | src/kernel.cpp:66-119 | The pass over the candidates, with its early end and its error exit for an unknown block. |
| StakeModifier.ChoiceIsLeast | src/kernel.cpp:66-119 | A block is chosen exactly if one is left, and it has the least selection hash among those up to the stop time, the earliest of equals, or is the first one left. |
| StakeChoice.ChosenIff | src/kernel.cpp:66-119 | With the hashes themselves: a block is chosen exactly if, among the blocks not selected and in time, it has the lesser hash than every one of its kind, of stake without the last 32 bits, and as one of work a hash 2^32 times smaller than every one of stake; the earlier of equals. |
| StakeChoice.StakeIsFavoured | src/kernel.cpp:97-101 | If the block of stake has a 256-bit hash and no block of work has one below 2^224, a block of stake is chosen. |
| StakeModifier.SelectRounds | src/kernel.cpp:188-212 | The rounds with their growing stop time, selected set and modifier bits. |
| StakeModifier.RoundsSucceed | src/kernel.cpp:188-204 | Every one of the min(64, n) rounds finds a block: picks are distinct, each is the right choice, and bit r is pick r's entropy bit. |
| StakeModifier.GetLastStakeModifier | src/kernel.cpp:30-45 | The modifier and time of the youngest block that generated one, or failure. |
| StakeChoice.LastIs | src/kernel.cpp:30-45 | The block that is looked up is the first from the top that generated a modifier, or the oldest. |
| StakeChoice.CandidatesAre | src/kernel.cpp:166-178 | The candidates are the blocks from the top back to the first that is before the floored time of the top less 21135 seconds, each once, by time and then by hash. |
| StakeChoice.KeepsModifier | src/kernel.cpp:150-165 | There is a new modifier exactly if a multiple of 600 seconds lies after the last one's block and not after the top; otherwise the last one stays. |
| StakeModifier.ComputeNextStakeModifier | src/kernel.cpp:133-245 | The modifier for the next block, or the old one, or failure. |
| StakeModifier.ModifierExists | src/kernel.cpp:133-204 | It fails if and only if the chain is not empty and no block of it generated a modifier. |
| StakeModifier.NewModifier | src/kernel.cpp:166-245 | A new modifier has 64 bits, one from each pick, and after 64 rounds the selection has reached the floored time of the previous block. |
| PageLocks.MaskRounds | src/allocators.h:47-53 | Masking an address with the page mask rounds it down to a page, for every power-of-two page size. |
| PageLocks.TouchesIsOverlap | src/allocators.h:60-62 | The pages from the first to the last address of a range are exactly those that share a byte with it. |
| PageLocks.LockedPageManager.LockRange | src/allocators.h:56-77 | The histogram counts one more range on each page it touches, and a page is locked exactly when its count leaves zero. |
| PageLocks.LockedPageManager.UnlockRange | src/allocators.h:80-100 | For an outstanding range the assertion in the loop never fails; counts go down and a page is unlocked exactly when its count is zero. |
| PageLocks.LockedPageManager.GetLockedPageCount | src/allocators.h:102-106 | The number of pages the locker holds. |
| PageLocks.NoneLeft | src/allocators.h:80-100 | When no range is outstanding, no page is counted. |
| BlockTemplate.PopHighest | src/miner.cpp:289-295 | Takes an entry that no other is above, in the order in force. |
| BlockTemplate.Connect | src/miner.cpp:330-360 | A transaction is added exactly if its inputs are found, its fee and signature operations are in order and its inputs can be spent; the template stays sound. |
| TemplateRules.ConnectsIff | src/miner.cpp:330-352 | A candidate that passes the earlier tests is added exactly if its inputs are in order, unspent after the chosen transactions and signed, and its fee reaches the minimum for the present size and the limit of signature operations is kept. |
| TemplateRules.MinFeeIs | src/main.cpp:481-511 | The minimum fee is 0.01 coins below half the generated size, from there on that times the times the free room goes into the whole, and MAX_MONEY without room. |
| TemplateRules.ClampIs | src/miner.cpp:155-160 | The size limit is the option, kept between 1000 and 19,999,000. |
| BlockTemplate.FetchedWorth | src/miner.cpp:336-341 | The value fetched for an input in the template is that of the chain or of the memory pool. |
| TemplatePool.SpendsMore | src/miner.cpp:347-352 | Appending a spendable transaction keeps the trial index equal to the chain's index with all chosen transactions added and each of their inputs spent once. |
| TemplatePool.ParentIsEarlier | src/miner.cpp:367-385 | An input that is not from the chain names a transaction placed earlier in the block. |
| TemplateQueue.Examine | src/miner.cpp:203-272 | For one memory pool transaction: whether an input is missing, and if not what it waits for, with the registrations under each parent, and its priorities; a transaction with a missing input registers nothing. |
| TemplateRules.PriorityIs | src/miner.cpp:203-272 | Priority times size is the sum of value times depth of the inputs in the chain; fee per kilobyte times size is a thousand times inputs less outputs. |
| TemplateQueue.Collect | src/miner.cpp:190-273 | Before the loop, the queue holds exactly the candidates that wait for nothing, and every other one is registered under each of its parents; a transaction with a missing input is no candidate. |
| TemplateQueue.Notify | src/miner.cpp:367-385 | After telling the dependers of a chosen transaction, the queue has each candidate whose last parent that was, once, however often it was registered. |
| TemplateQueue.CollectTransactions | src/miner.cpp:275-386 | Each transaction at most once, parents first, no output spent twice, size, signature operations, minimum fees and total fee as recorded; every candidate whose parents are all in the block was tried, no other was; and a log of the tries in which each is as the rules say and leads to the next. |
| TemplateRules.TryIs | src/miner.cpp:280-345 | A logged try adds its transaction exactly if the block stays below the size limit and the limit of signature operations, the transaction's time is not after the adjusted time nor, for stake, the coinbase's, it is not free past the minimum size while fees decide, and it connects; nothing that waits is above it in the order in force; and the order turns to fees exactly with the first that gets so far and is past the priority size or below the priority bound. |
| TemplateRules.WaitsIff | src/miner.cpp:190-202 | Before each try, exactly those final, ordinary transactions of the memory pool wait that were not tried and find every input in the chain or its transaction in the template. |
| TemplateRules.FirstOrder | src/miner.cpp:280-284 | Fees decide from the start exactly if no room is kept for priority. |

## Left out

- AddrDisk.Read: the bytes of the file; the model's file is a record of the values in the order they are written, and the version byte is fixed.
- AddrDisk.Write: as for reading, values and not bytes.
- TxIndex.ConnectInputs: 64-bit wrap-around of sums, because every running total is range-checked before the next addition; script evaluation and the fee schedule are arbitrary functions; transactions whose outputs are out of range, for which the original throws, are excluded by a precondition that CheckTransaction establishes.
- ConnectBlock.ConnectBlock: failing database writes, because inside a database transaction a write only extends the batch and returns true (src/txdb-leveldb.h:114-117); wallet notifications and the contents of the masternode and developer payment rules, which are one arbitrary answer; coin age likewise.
- ConnectBlock.WriteQueued: the exit for a failing write, for the same reason.
- ConnectBlock.DisconnectBlock: the entry of the previous block, whose failing write is the only further exit, for the same reason.
- IndexUndo.DisconnectAfterConnect: blocks connected with tolerance, for which `IndexTolerance.RestoredIff` has the exact condition.
- IndexUndo.RestoredIffFresh: the same.
- IndexUndo.InputsElsewhere: blocks connected with tolerance, which may overwrite an entry of their own.
- Supply.SupplyIsUnspentValue: blocks connected with tolerance, for which `Supply.SupplyMissesByGap` has the exact difference.
- Transactions.CheckTransaction: testnet, on which the length of the coinbase script is not tested.
- Transactions.CheckBlock: the block's size limit, time stamps, block signature and the Merkle root, which are one arbitrary answer.
- ChainState.ChainState.SetBestChain: the genesis block as a candidate; the transactions moved between memory pool and blocks, the wallet's locator and the version warning; whether a block connects is an arbitrary answer here and not tied to the transaction index, because the caller passes the reorganisation flag and the number of postponed blocks where a check-only flag and a tolerance flag are expected.
- ChainState.ChainState.AddToBlockIndex: the genesis block's own entry at start-up, which is the state a new object has, and blocks without a known predecessor, which are rejected before the call.
- SyncCheckpoint.SyncCheckpoints.ProcessSyncCheckpoint: the message signature, and the change of the best chain it may cause, are arbitrary answers; resetting to a hardened checkpoint and testnet are not modelled.
- StakeModifier.ComputeNextStakeModifier: the hash function is arbitrary; the sort is an insertion sort on the same pairs.
- BlockTemplate.PopHighest: the heap is a sequence searched for its greatest entry; priorities are real numbers without rounding.
- TemplateQueue.CollectTransactions: the coinbase and the header; a pool transaction with a missing input behind one that waits for another pool transaction, where the original keeps a pointer to the discarded entry, is excluded by a precondition, as are pool transactions that are already in the chain, which the memory pool does not admit (src/txmempool.cpp:63-65).
- PageLocks.LockedPageManager.LockRange: ranges that reach the last page of the address space, where the loop's address wraps around; the mutex.
- PageLocks.LockedPageManager.UnlockRange: the same ranges, and ranges that are not outstanding, for which the loop's assertion fails.
- Base58.DecodeBase58: the check for OpenSSL allocation failures; big numbers are integers with the library's byte format.
- Compact.SetCompact: the variant in the big-number class, which the block trust uses; the target it yields is an argument of the model.
- Choosing an address to connect to (`Select_`, `GetChance`): floating point, and it ends only with probability one.
- Sockets, messages, wallets, scripts, keys, alerts, masternodes, the graphical interface and the remote interface.
