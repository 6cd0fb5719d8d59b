# A verified model of the node's consensus, script, address and codec logic

The node keeps a block chain in a transaction index, evaluates scripts, remembers peer addresses, cuts a byte stream
into messages, and encodes everything it stores or shows. This project models that logic in Dafny and proves what it
is for. `dafny verify dfyconfig.toml` checks all of it.

Each algorithm appears twice: as a method in the form of the source (same loops, same branches, same in-place updates
of the same fields), and as a function that the method is proved to compute. Lemmas about the functions say what the
source promises.

**The chain.** `Ledger` is the meaning of connecting and disconnecting a block over a transaction index with spent
flags; `Acceptance` says without its recursion which transactions and blocks connect, and `BlockChecks` has the checks
that need no context. `BlockConnection` is the source's way of connecting, with a database that has a committed part and
a pending transaction, an input cache, and a queue of index changes. `BlockTree` holds the headers and the search for a
fork, `ChainState` the best chain: reorganisation, postponed blocks, the `pnext` pointers and the successor hashes on
disk. `Supply` counts coins. `Merkle`, `MedianTime` and `Compact` with `Retarget` are the tree of transaction hashes,
the time rule, and the work and difficulty rules of the main network; `Packing` is about packed targets, `HeaderChain`
about the chains that both rules admit, and `MinWork` about the least work a late block must have.

**Scripts.** `ScriptCode` reads, writes and edits script bytes. `Interpreter` is the stack machine, `Structured` the
block-structured semantics that its flat stack of condition flags implements, `Opcodes` the laws of the data opcodes,
`Multisig` the signature matching loop. `Standard` matches the standard output forms, `Destinations` builds them.
`Signatures`, `PushScripts` and `Signing` lead to the theorem that a complete signature is always accepted, `Spending`
to what exactly is accepted for each form; `Combine` merges partial multisig signatures.

**Addresses.** `AddrTable` has the five mutually indexed tables as one value and their consistency, `AddrMan` the
class that updates them in place, `AddrLife` what becomes of an entry, `AddrCheck` the consistency check of debug
builds, `AddrDisk` the stored form, and `AddrRehash` a stored form whose entries are hashed anew.

**Bytes.** `Streams`, `Serialization` and `Transactions` are the stream buffer, compact sizes, vectors, transactions and
blocks; `Framing` is the message parser; `Bignum` and `Base58` are sign-magnitude integers and base-58 text.
`Bytes`, `Sequences` and `Wrappers` hold what these share.

Hash functions, elliptic-curve signing and verification, block files, clocks and random choices are parameters. Where
a theorem needs something of them (that keys verify what they sign, say) it is a precondition of that theorem; where
a hash may collide, the theorem computes the two inputs that collide. Random choices are arbitrary values in range; a
method that makes one reports it in a ghost result, so that its contract can say exactly what the new state is.

Results that show where the code does not do what one might expect:

- Disconnecting a block undoes connecting it exactly if none of the block's transaction ids was in the index
  (`Ledger.UndoBlock`). Blocks may reuse the id of a fully spent transaction, and undoing such a block loses the entry
  (`Ledger.DuplicateLost`).
- A branch switch succeeds if the branch connects up to the first block that beats the best chain, and leaves the node
  valid exactly if it connects to its end (`ChainState.Chain.SetBestChain`). Otherwise the node claims a best block the
  database is not at; `ChainState.StuckRun` builds such a run.
- A signature hash type asking for the output with the input's own index, when there is none, signs the fixed hash 1
  (`Signatures.NothingToSignExactlyWhen`), so that the signature is good for every other such input
  (`Signatures.SingleWithoutOutput`).
- The root of a Merkle tree determines only the list that fills the tree (`Merkle.SameRootExactlyWhen`), so every list
  that does not fill its tree shares its root with a longer one (`Merkle.FilledSharesRoot`); it determines the list
  itself where nothing is repeated (`Merkle.RootDetermines`).
- The position that `SelectTried` returns is where the oldest inspected entry stood before it was swapped forward. The
  entry evicted is that one exactly if it was drawn from its own place (`AddrTable.EvictsOldest`); in a full bucket the
  one of the inspected four that succeeded last may have to go (`AddrTable.EvictsNewest`).
- A known address that is heard of directly, and long after the time on record, has its record brought forward and then
  counts as no news, so that it enters no further bucket (`AddrLife.GoesOnExactlyWhen`).
- Reading stored addresses that were kept in another number of buckets can overfill a bucket
  (`AddrRehash.BucketOverfilled`, `AddrRehash.RehashedOkExactlyWhen`).
- `ComputeMinWork` is meant to bound the target of any block so much later than another one, but it starts counting at
  that block, while a retarget also counts the time before it. A chain that keeps the rules gets past the bound within a
  given time exactly if the base target is neither zero nor made the easiest one by fourfold for every period of four
  days begun (`MinWork.MinimumExactlyWhen`). So the bound holds after every time only for a target that is zero or
  already the easiest (`MinWork.AlwaysMinimumExactlyWhen`), and `ProcessBlock` would refuse the last block of a chain
  that gets past it (`MinWork.FastRefused`).

## Model

| member | source | states |
|---|---|---|
| Ledger.UndoTx | src/main.cpp:1022-1056 | disconnecting a transaction right after connecting it restores the index, for an id that was not indexed |
| Ledger.UndoTxs | src/main.cpp:1317-1335 | disconnecting the first k transactions backwards restores the index, also where they spend outputs of each other |
| Ledger.UndoBlock | src/main.cpp:1317-1416 | disconnecting a connected block restores the index if and only if none of its ids was indexed before |
| Ledger.DuplicateLost | src/main.cpp:1369-1376 | whatever the rules and the index, a block whose only transaction reuses a fully spent id connects, and undoing it leaves the index without that id |
| Ledger.ConnectedKeys | src/main.cpp:1360-1399 | connecting adds exactly the ids of the block to the index |
| Acceptance.ImmatureExactlyWhen | src/main.cpp:1197-1201 | a coinbase is too young exactly if it lies, by file and position, in the block itself or an ancestor fewer than 15 below |
| Acceptance.SpentInConnectedBlock | src/main.cpp:1175-1265 | every input of a connected block spends an output that is there, unspent, signed for if scripts are checked, and no coinbase from fewer than 15 blocks below |
| Acceptance.OldCoinbasePasses | src/main.cpp:1197-1201 | a coinbase in none of those blocks is never refused for its age |
| Acceptance.TxConnectsExactlyWhen | src/main.cpp:1360-1399 | a transaction connects if and only if it overwrites nothing unspent after the switch, keeps the signature operation limit, and all its inputs, amounts and signatures pass; then exactly its inputs are marked and its outputs added |
| Acceptance.BlockConnectsExactlyWhen | src/main.cpp:1337-1436 | a block connects if and only if it passes the context-free checks, its transactions pass in turn, and its coinbase takes at most one COIN more than the fees |
| BlockChecks.CheckTransaction | src/main.cpp:430-477 | the loops decide the context-free transaction rules |
| BlockChecks.CheckBlock | src/main.cpp:1724-1775 | the loops decide the context-free block rules, given the verdict on size, work, time, signature operations and Merkle root |
| BlockChecks.CheckedExactlyWhen | src/main.cpp:430-477 | a transaction passes if and only if it prints to at most a million bytes, its amounts are not negative and come to at most all the money, it names as many outputs as it has inputs, and its inputs and script fit its kind |
| BlockConnection.TxDb.TxnCommit | src/db.h:259-266 | the pending changes become the committed ones and the transaction ends |
| BlockConnection.TxDb.TxnAbort | src/db.h:268-275 | the pending changes are dropped and nothing committed has changed |
| BlockConnection.FetchInputs | src/main.cpp:1058-1131 | succeeds exactly if every input's transaction and output exist, and then caches each as index and queue have it |
| BlockConnection.GetValueOut | src/main.h:524-535 | the sum of the outputs, or the exception if a value or a partial sum is out of range |
| BlockConnection.ConnectInputs | src/main.cpp:1175-1265 | accepts exactly the transactions whose inputs are mature, in range, unspent and rightly signed, and marks those inputs |
| BlockConnection.ConnectBlock | src/main.cpp:1337-1436 | with all changes queued until the end, the database becomes what connecting the transactions one by one would make it |
| BlockConnection.DisconnectInputs | src/main.cpp:1022-1056 | clears the spent flags of the inputs and erases the entry, or fails where an input is missing |
| BlockConnection.DisconnectBlock | src/main.cpp:1317-1335 | undoes the transactions from the last to the first and clears the successor of the block below |
| BlockTree.FindFork | src/main.cpp:1442-1454 | the walk down both branches ends at their lowest common ancestor, or at null |
| BlockTree.LowestCommonAncestorIsLowest | src/main.cpp:1442-1454 | the fork is an ancestor of both tips and every common ancestor lies at or below it |
| ChainState.DisconnectDownIsReplay | src/main.cpp:1469-1485 | undoing blocks whose ids were fresh leaves exactly the replay of the chain up to the fork |
| ChainState.ConnectUpIsReplay | src/main.cpp:1487-1504 | connecting a branch on the replay of its base gives the replay of its tip, whether or not scripts were checked |
| ChainState.Chain.Reorganize | src/main.cpp:1438-1532 | one transaction moves index, best-chain hash and pointers to the new branch; on failure nothing committed and no pointer has changed |
| ChainState.Chain.ReorganizedIsReplay | src/main.cpp:1438-1532 | after a reorganisation the index is the replay of the chain from genesis to the new tip |
| ChainState.Chain.SwitchPointers | src/main.cpp:1512-1520 | pnext ends up set on exactly the proper ancestors of the new tip |
| ChainState.Chain.SetBestChainInner | src/main.cpp:1536-1558 | connects one block and commits, or aborts and leaves everything committed as it was |
| BlockTree.LcaOfHeavier | src/main.cpp:1584-1593 | leaving out blocks above one that already beats the best chain does not move the fork |
| ChainState.Chain.PostponeBlocks | src/main.cpp:1584-1593 | the postponed blocks are the path above the lowest block that already beats the best chain |
| ChainState.Chain.ConnectPostponed | src/main.cpp:1607-1624 | the database moves up the postponed path, stops without an error at the first block that fails, and reaches the end exactly if every block connects |
| ChainState.Chain.SetBestChain | src/main.cpp:1560-1671 | it succeeds exactly if the branch to be left can be undone and the new one connects up to its first block that beats the best chain, and leaves the node valid exactly if what connects is the replay of the whole new chain; if no block to be left reused an id, that is if the new branch connects so far and to its end; on failure nothing changes |
| ChainState.Chain.SwitchIsReplay | src/main.cpp:1595-1624 | the reorganised index is the replay of the new branch, and the postponed blocks connect exactly if the whole branch does |
| ChainState.StuckRun | src/main.cpp:1607-1636 | a valid node on which SetBestChain succeeds and that is not valid afterwards |
| ChainState.Chain.AddToBlockIndex | src/main.cpp:1674-1719 | a new block joins the tree with its parent's work plus that of its bits; the best chain changes to it exactly if it is heavier and can be switched to, which alone decides success; on top of the best block, with any work, exactly if it connects; a known hash is refused |
| ChainState.Chain.OnTopOfBest | src/main.cpp:1693-1706 | a block right on top of the best one whose target is positive and below 2 to the 256 is heavier, and switching to it is connecting it |
| Compact.WorkNeverGrows | src/main.h:1135-1142 | of two positive targets the larger has at most the work of the smaller, where work is 2 to the 256 over the target plus one, rounded down |
| Compact.WorkIsPositive | src/main.h:1135-1142 | there is work in exactly the positive targets below 2 to the 256 |
| ChainState.Chain.IsInMainChain | src/main.h:1144-1147 | holds exactly for the ancestors of the best block |
| ChainState.NextOnAncestors | src/main.h:1144-1147 | the successor on the way to a tip exists exactly for the proper ancestors of the tip |
| ChainState.NoDoubleSpend | src/main.cpp:1219-1243 | on a chain with fresh ids no output is spent twice, and every spent one is flagged in the index |
| ChainState.ChainSupplyBound | src/main.cpp:829-834 | the unspent outputs of a chain are worth at most one COIN for each connected block |
| ChainState.FilesStore | src/main.cpp:1360-1383 | a block printed at its file position has every transaction readable at the position the index records |
| Supply.SupplyBound | src/main.cpp:1402-1419 | a connected block raises the total value by at most one COIN, and by exactly the coinbase less the fees if its ids were fresh |
| Supply.TotalMark | src/main.cpp:1219-1243 | marking an output as spent takes exactly its value out of the total |
| Streams.DataStream.Read | src/serialize.h:931-952 | takes bytes from the front, or fails past the end with nothing changed |
| Streams.DataStream.Ignore | src/serialize.h:954-972 | drops bytes from the front, or fails past the end with nothing changed |
| Streams.DataStream.EraseFront | src/serialize.h:869-887 | drops bytes by moving the read position or clearing the buffer |
| Streams.DataStream.InsertFront | src/serialize.h:824-836 | puts bytes back in front, using freed room when it suffices |
| Serialization.CompactSizeRoundTrip | src/serialize.h:169-240 | a written size is read back exactly if it is at most MAX_SIZE, with the bytes behind it left alone |
| Serialization.WriteCompactSize | src/serialize.h:178-207 | appends the shortest of the four forms |
| Serialization.ReadCompactSize | src/serialize.h:210-240 | reads any of the four forms and refuses sizes over MAX_SIZE |
| Serialization.ShortestCompactSize | src/serialize.h:178-207 | nothing shorter than what is written is read as the same size |
| Serialization.VectorRoundTrip | src/serialize.h:392-475 | a vector of up to MAX_SIZE elements is read back if its elements are |
| Serialization.WriteVector | src/serialize.h:423-428 | appends the count and then each element |
| Serialization.ReadVector | src/serialize.h:454-469 | reading in batches accepts and returns exactly what reading the elements one by one does |
| Serialization.ReadBytes | src/serialize.h:438-451 | reading in blocks of 5,000,000 returns exactly the announced bytes |
| Serialization.BytesRoundTrip | src/serialize.h:415-420 | a byte vector is read back exactly if its length is at most MAX_SIZE |
| Transactions.TxRoundTrip | src/main.h:416-423 | a printed transaction is read back, whatever bytes follow |
| Transactions.TxSizeIsPrintedLength | src/serialize.h:398-411 | GetSerializeSize is the length of what is written |
| Transactions.VectorSize | src/serialize.h:398-405 | the size loop adds the count's size and the elements' sizes |
| Transactions.RecordedOffsetReadsTx | src/main.cpp:1360-1383 | the offset recorded for the i-th transaction is where the block's serialization put it |
| Transactions.OffsetsIncrease | src/main.cpp:1360-1383 | the recorded ranges of two transactions of a block do not overlap |
| Merkle.FlatRefinesTree | src/main.h:908-925 | the flat array holds every node of the binary tree with duplicated last nodes, level by level |
| Merkle.FlatEndsInRoot | src/main.h:908-925 | its last entry is the root of that tree |
| Merkle.Block.BuildMerkleTree | src/main.h:908-925 | builds that array and returns the root, zero for an empty block |
| Merkle.Block.GetMerkleBranch | src/main.h:927-941 | the siblings on the way up from the given leaf |
| Merkle.CheckMerkleBranch | src/main.h:943-956 | folds a branch, for any index, with zero for -1 |
| Merkle.BranchLeadsToRoot | src/main.h:927-956 | for every transaction, its branch folds to the root |
| Merkle.BranchProves | src/main.h:943-956 | a branch of the right length folds to the root exactly for the transaction at that place with its own branch, or else two pairs computed from them collide |
| Merkle.SameRootExactlyWhen | src/main.h:908-925 | two lists of one depth have the same root exactly if they fill their trees to the same list, or else two pairs computed from them collide |
| Merkle.SameRootAcrossDepths | src/main.h:908-925 | a deeper list is compared by its level at the depth of the other |
| Merkle.RootDetermines | src/main.h:908-925 | of lists without repeats at one depth the root determines the list, or two pairs collide |
| Merkle.FilledSharesRoot | src/main.h:908-925 | every list has the root of the list that fills its tree, which is another one unless the tree is full |
| Merkle.LastRepeated | src/main.h:908-925 | the root of an odd list is also that of the list with its last entry repeated |
| MedianTime.MedianAtMost | src/main.h:1156-1168 | the median is at most m exactly if more than half of the times are |
| MedianTime.GetMedianTimePast | src/main.h:1156-1168 | the median of up to eleven times ending in the block's own |
| MedianTime.PushKeepsMedian | src/main.h:1156-1168 | a time above the median never lowers the median, for windows of any length up to eleven |
| MedianTime.MedianNeverDecreases | src/main.cpp:1797-1798 | median time past never decreases along a chain that keeps the time rule |
| MedianTime.LaterThanAllMedians | src/main.cpp:1797-1798 | an accepted block is later than the median time past of every block below it |
| MedianTime.UpdateTime | src/main.cpp:1003-1005 | chooses the earliest time from now on that the rule accepts |
| Compact.CompactTruncates | src/bignum.h:266-289 | packing truncates a positive number downward by less than one part in 2 to the 15 and is idempotent |
| Compact.CompactKeepsTop | src/bignum.h:278-289 | unpacking a packed number gives its bytes with all but the top three zeroed |
| Retarget.EnoughHistory | src/main.cpp:901-914 | at every retarget height the chain is long enough to look back, so pindexFirst is never null |
| Retarget.GetNextWorkRequired | src/main.cpp:870-945 | the work limit, the last bits, or the packed clamped and rescaled target |
| Retarget.RescaledExactlyWhen | src/main.cpp:924-936 | a number is the new target if and only if it is the old one times the timespan per day, rounded toward zero, or the limit if that is lower, the timespan counting as a quarter of a day to four days |
| Retarget.NextWorkScales | src/main.cpp:886-936 | bits are kept within an interval of 720 blocks; at its end the target is rescaled by the time since the block 720 (the first time 719) below, or a quarter of that since the block 2880 below from height 15001 on |
| Retarget.NewTargetMonotone | src/main.cpp:924-936 | a longer timespan or a larger old target never gives a smaller target |
| Retarget.KeptExactlyWhen | src/main.cpp:924-936 | a target of at least 86400 below the limit is kept if and only if the timespan is a day |
| Retarget.NewTargetBounds | src/main.cpp:924-936 | the new target lies between a quarter and four times the old one and within the limit |
| Retarget.RetargetBounds | src/main.cpp:870-945 | so does the packed one, up to less than one part in 2 to the 15 at the lower end |
| Packing.PackedMonotone | src/bignum.h:266-289 | packing keeps the order of targets |
| HeaderChain.RequiredIsNextWork | src/main.cpp:870-945 | the bits required on top of a list of headers are those required on top of the block index that the list is read from |
| HeaderChain.AcceptedInTree | src/main.cpp:1793-1798 | a header may follow in such a list exactly if its bits and its time pass both tests of AcceptBlock |
| MinWork.ComputeMinWork | src/main.cpp:849-868 | four times the base target for every period of four days begun, cut off at the limit and packed |
| MinWork.NotRefused | src/main.cpp:1855-1865 | no later block of a chain that keeps both rules is refused, if the base target is zero or made the easiest by fourfold for every period begun |
| MinWork.FastRefused | src/main.cpp:1855-1865 | otherwise a chain that keeps both rules from genesis to a block with these bits and on to one so much later that it is refused |
| MinWork.MinimumExactlyWhen | src/main.cpp:844-868 | for each base and time, the result is a minimum over all chains that keep both rules if and only if that condition holds |
| MinWork.AlwaysMinimumExactlyWhen | src/main.cpp:844-868 | it is a minimum after every time if and only if the base target is zero or the easiest |
| Bignum.VchRoundTrip | src/bignum.h:239-264 | setvch inverts getvch on every integer |
| Bignum.MagnitudeUnique | src/bignum.h:252-264 | the shortest byte form of a number is unique |
| ScriptCode.GetOp2 | src/script.h:414-465 | reads one instruction and advances past it, or fails where it runs over the end |
| ScriptCode.ParsePush | src/script.h:351-376 | reading inverts the push encoder in all four length classes |
| ScriptCode.DeletedIsFiltered | src/script.h:483-500 | deleting a whole instruction is filtering it out of the instruction list and keeping an unparsable tail |
| ScriptCode.FindAndDelete | src/script.h:483-500 | the erasing loop computes that deletion and counts the copies found |
| ScriptCode.ChunksOfWhole | src/script.h:414-465 | the instructions and the unparsable tail make up the script |
| ScriptCode.SmallIntegers | src/script.h:468-481 | EncodeOP_N and DecodeOP_N invert each other |
| ScriptCode.IsPushOnly | src/script.h:525-537 | every instruction parses and has an opcode of at most OP_16 |
| ScriptCode.PushAll | src/script.cpp:1650-1656 | one push after the other |
| Interpreter.CastToBool | src/script.cpp:43-55 | true if some byte is nonzero, a lone sign bit at the end not counting |
| Interpreter.TrueMeansNonzero | src/script.cpp:35-55 | a value is true exactly if the number it encodes is not zero |
| Interpreter.OpCheckMultisig | src/script.cpp:941-1012 | pops keys, signatures and three more items and pushes whether the signatures can be assigned to keys in order |
| Interpreter.Round | src/script.cpp:257-1022 | one round of the loop is one step of the machine |
| Interpreter.EvalScript | src/script.cpp:240-1033 | the whole loop computes the run of those steps from pc to the end |
| Interpreter.StepKeepsLimits | src/script.cpp:257-1022 | every step keeps elements within 520 bytes, both stacks within 1000 and operations within 201 |
| Interpreter.RunKeepsLimits | src/script.cpp:255-1022 | so does every run |
| Opcodes.EvalOnlyIfAllowed | src/script.cpp:250-291 | a script that evaluates has no disabled, reserved or unreadable instruction, taken or not, at most 201 operations, and no push over 520 bytes |
| Opcodes.PickAndRoll | src/script.cpp:534-550 | OP_PICK copies and OP_ROLL moves the value n below the top, and both fail exactly where there is none |
| Opcodes.RollsCycle | src/script.cpp:534-550 | rolling n + 1 times from depth n gives the stack back |
| Opcodes.CopiesArePicks | src/script.cpp:416-532 | every copying opcode is some picks, on every stack |
| Opcodes.MovesAreRolls | src/script.cpp:454-571 | every reordering opcode is some rolls, on every stack |
| Opcodes.OtherShuffles | src/script.cpp:406-582 | OP_NIP, OP_TUCK, OP_2DROP and OP_IFDUP in terms of swapping, dropping and copying |
| Opcodes.BasicNumbers | src/script.cpp:728-845 | negating, adding, comparing and OP_NOT on numbers of up to four bytes |
| Opcodes.UnaryLaws | src/script.cpp:728-845 | incrementing, decrementing, subtracting, OP_ABS and OP_0NOTEQUAL follow from those, on every stack |
| Opcodes.AndOr | src/script.cpp:728-845 | so do OP_BOOLAND and OP_BOOLOR |
| Opcodes.Negated | src/script.cpp:728-845 | three comparisons are each another one followed by OP_NOT |
| Opcodes.Greater | src/script.cpp:728-845 | OP_GREATERTHAN is OP_SWAP and OP_LESSTHAN |
| Opcodes.LesserAndGreater | src/script.cpp:728-845 | OP_MIN and OP_MAX give the two numbers back, the lesser and the greater |
| Opcodes.WithinBounds | src/script.cpp:847-860 | OP_WITHIN tells the numbers from the first bound on and below the second |
| Opcodes.VerifyVariants | src/script.cpp:364-376 | each VERIFY variant is the plain opcode followed by OP_VERIFY, which fails on zero and takes anything else away |
| Opcodes.DepthAndSize | src/script.cpp:488-651 | the number of values and the length of the top one, pushed as numbers |
| Opcodes.AltStackReturns | src/script.cpp:388-404 | what goes to the other stack comes back |
| Opcodes.SubtractThenAdd | src/script.cpp:728-845 | subtracting and then adding gives the number back if and only if the difference fits into four bytes |
| Opcodes.HashLock | src/script.cpp:867-896 | a hash lock leaves true exactly for the values with that hash, for each of the five hash opcodes |
| Opcodes.MultisigArguments | src/script.cpp:941-1012 | OP_CHECKMULTISIG fails for more than twenty keys, more signatures than keys, or too many operations, and answers whether the signatures can be assigned to the keys otherwise |
| Opcodes.SeparatorCuts | src/script.cpp:899-904 | behind OP_CODESEPARATOR signatures sign what follows it |
| Multisig.GreedyIsComplete | src/script.cpp:979-998 | trying each key once in order succeeds exactly if an order-preserving assignment exists |
| Multisig.MatchSignatures | src/script.cpp:979-998 | the loop with its four counters decides that question and ends |
| Structured.FlatRefinesStructured | src/script.cpp:257-382 | the machine with its stack of condition flags computes the block-structured semantics, and fails on unbalanced conditionals |
| Structured.SkippedCodeIsInert | src/script.cpp:257-382 | code in a branch not taken leaves both stacks and the signed script untouched |
| Standard.Solver | src/script.cpp:1204-1313 | the template scan reports the type and the data of the script, which stay set when the counts of a multisig script are wrong |
| Standard.RecognisedMultisig | src/script.cpp:1251-1258 | even then there are two small integers around the keys |
| Standard.PubKeySolved | src/script.cpp:1204-1313 | pay-to-pubkey is reported exactly for a key-sized push followed by OP_CHECKSIG |
| Standard.PubKeyHashSolved | src/script.cpp:1204-1313 | pay-to-pubkey-hash is reported exactly for its one form, the hash pushed in any way |
| Standard.MultisigSolved | src/script.cpp:1204-1313 | multisig is reported exactly for m of n key pushes with 1 <= m <= n |
| Standard.MultisigVerdict | src/script.cpp:1251-1258 | every multisig verdict carries m, the keys and their count |
| Destinations.SetDestination | src/script.cpp:1829-1857 | writes the form for a key id or a script id and clears the script for none |
| Destinations.SetMultisig | src/script.cpp:1859-1867 | writes m, the key pushes, n and OP_CHECKMULTISIG |
| Destinations.ExtractDestination | src/script.cpp:1499-1523 | the address of the three single-address forms |
| Destinations.DestinationRoundTrip | src/script.cpp:1499-1857 | the address a script was built for is the one read from it |
| Destinations.DestinationExactlyWhen | src/script.cpp:1499-1523 | a script has an address if and only if it has one of the three single-address forms, and then the hash of the key or script it asks for |
| Destinations.MultisigRecognised | src/script.cpp:1859-1867 | a built multisig script is recognised exactly if 1 <= m <= n and every key has the size of one |
| Signatures.SignatureHash | src/script.cpp:1043-1103 | blanks scripts, outputs and inputs in place as the hash type says, or returns the hash 1 |
| Signatures.HashIgnoresScripts | src/script.cpp:1056-1059 | no input script enters the hash |
| Signatures.AnyoneCanPayIgnoresOtherInputs | src/script.cpp:1091-1096 | with that flag the other inputs do not enter the hash |
| Signatures.NoneIgnoresOutputs | src/script.cpp:1061-1071 | with that type neither the outputs nor the other sequence numbers enter the hash |
| Signatures.NothingToSignExactlyWhen | src/script.cpp:1043-1082 | the fixed hash is signed exactly if the input, or its own output where only that is signed, does not exist |
| Signatures.SingleWithoutOutput | src/script.cpp:1072-1082 | such a signature is as good for any other such input of any transaction |
| Signatures.HashCommitsTo | src/script.cpp:1043-1103 | what is hashed is the same if and only if version, lock time, script code without separators, and the inputs and outputs that the hash type names are |
| Signatures.SignatureCommitsTo | src/script.cpp:1043-1103 | so a signature hash is shared exactly by what agrees in all of those parts, or else the hash function collides on the two |
| Signatures.SingleIgnoresOtherOutputs | src/script.cpp:1072-1089 | with SIGHASH_SINGLE the other outputs and sequence numbers can be anything |
| Signatures.CheckSig | src/script.cpp:1163-1193 | the last byte is the hash type, a nonzero type asked for must agree, and the rest must verify |
| PushScripts.EvalPushes | src/script.cpp:1650-1656 | evaluating PushAll(values) on an empty stack leaves exactly those values |
| PushScripts.EvalMultisig | src/script.cpp:941-1012 | a multisig output leaves the answer whether the signatures can be assigned to its keys in order |
| PushScripts.MultisigPushesKeys | src/script.cpp:1216-1217 | a multisig output pushes nothing but its keys |
| Signing.VerifyScript | src/script.cpp:1554-1588 | evaluates both scripts and, for pay-to-script-hash, the serialized one; the copied stack is never read empty |
| Signing.ScriptHashNeedsElement | src/script.cpp:1570-1578 | a pay-to-script-hash output fails on an empty stack |
| Spending.PubKeySpentExactlyWhen | src/script.cpp:1554-1588 | pay-to-pubkey is spent if and only if the top of what scriptSig leaves is a signature by the key of the transaction, the script and the hash type in its last byte |
| Spending.PubKeyHashSpentExactlyWhen | src/script.cpp:1554-1588 | pay-to-pubkey-hash if and only if the top is a key with that hash and the value below a signature by it |
| Spending.MultisigSpentExactlyWhen | src/script.cpp:1554-1588 | m of n if and only if the m values on top, above one that is ignored, are signatures by keys of the list in their order |
| Spending.ScriptHashSpentExactlyWhen | src/script.cpp:1554-1588 | pay-to-script-hash if and only if scriptSig only pushes, its top has that hash, and run as a script on the rest that leaves a number other than zero on top |
| Spending.NothingSpendsNothing | src/script.cpp:1554-1588 | an empty scriptSig spends no standard output |
| Signing.Sign1 | src/script.cpp:1316-1329 | appends the signature of the filed key with its hash type, or appends nothing |
| Signing.SignN | src/script.cpp:1331-1343 | appends the first signatures that can be made in key order and succeeds exactly if there are enough |
| Signing.SolverSign | src/script.cpp:1351-1387 | the script that satisfies an output as far as the store can, or the filed script of a script hash |
| Signing.SignSignature | src/script.cpp:1591-1624 | the scriptSig written and the result, the final test included |
| Signing.SignedExactlyWhen | src/script.cpp:1351-1387 | everything an output asks for is signed if and only if the store holds the key, enough of the keys, or the script |
| Signing.SigningIsComplete | src/script.cpp:1591-1624 | whenever everything asked for was signed, that final test passes, for all three forms and a script hash over one |
| Combine.FileSignature | src/script.cpp:1675-1694 | files a signature under the first key that has none and for which it is valid, or changes nothing if there is none |
| Combine.CombineMultisig | src/script.cpp:1658-1711 | exactly m slots: signatures from either input in key order, each valid for its key, then blanks; as many as possible if no signature fits two keys |
| Combine.CombinationPasses | src/script.cpp:1695-1710 | the result passes the matching exactly if no slot is blank, which is when m key positions have a signature |
| Combine.CombinedScriptAccepted | src/script.cpp:1658-1711 | evaluated against the output it is accepted exactly if no slot is blank |
| AddrTable.GroupBound | src/addrman.cpp:9-21 | one address group takes at most four tried buckets of 64 |
| AddrTable.SizeBound | src/addrman.h:122-138 | the tables hold at most 64 times 64 tried and 256 times 64 new entries, all listed in the random order |
| AddrTable.AddedOk | src/addrman.cpp:312-368 | hearing of an address keeps the tables consistent |
| AddrTable.AddedLoses | src/addrman.cpp:312-368 | and loses at most one other entry, never a tried one, while the address itself is on record |
| AddrTable.MadeGoodOk | src/addrman.cpp:261-310 | a good connection keeps the tables consistent, loses no address and leaves the address tried |
| AddrTable.PromotedOk | src/addrman.cpp:203-259 | moving an entry to its tried bucket, sending one back if it is full, keeps the tables consistent |
| AddrTable.UnrefOk | src/addrman.cpp:149-201 | dropping a reference, and the entry with its last one, keeps the tables consistent |
| AddrTable.SwappedOk | src/addrman.cpp:105-123 | swapping two places of the random order keeps the tables consistent |
| AddrLife.UnreachedTerribleExactlyWhen | src/addrman.cpp:37-55 | an entry never reached is given up exactly after three attempts, a minute after the last |
| AddrLife.ReachedTerribleExactlyWhen | src/addrman.cpp:37-290 | one just reached is given up exactly thirty days later, whatever happened before |
| AddrLife.LostTerribleExactlyWhen | src/addrman.cpp:37-387 | one that was reached is given up exactly after ten attempts in vain and a week, or thirty days, and a minute after the last attempt |
| AddrLife.RefreshedExactlyWhen | src/addrman.cpp:321-330 | hearing of an entry adds services and brings its time forward, never back, exactly if it lags by an hour or a day |
| AddrLife.GoesOnExactlyWhen | src/addrman.cpp:332-350 | when hearing of a known address can put it into one more bucket |
| AddrMan.AddrMan.Draw | src/addrman.cpp:344-350 | the draw is lucky for one in two to the number of buckets the entry is in |
| AddrLife.AddedIsFiled | src/addrman.cpp:358-367 | it is in the bucket of its group and the source's then, and only a full bucket gives up another entry |
| AddrLife.AddedKnownEntry | src/addrman.cpp:312-368 | what the record of a known address holds afterwards, the random order aside |
| AddrLife.AddedNewEntry | src/addrman.cpp:93-368 | what the record of a new one holds |
| AddrLife.MadeGoodEntry | src/addrman.cpp:261-284 | after a good connection the record says so, whichever table the entry was in |
| AddrLife.PromotedEvicting | src/addrman.cpp:222-258 | the promoted entry takes the place of the evicted one, which returns to the bucket for its own source if there is room |
| AddrLife.SourceBound | src/addrman.cpp:23-35 | the sources of one group reach at most 32 new buckets, and which one depends on the two groups alone |
| AddrMan.AddrMan.Find | src/addrman.cpp:80-91 | finds exactly the hosts on record |
| AddrMan.AddrMan.Create | src/addrman.cpp:93-103 | a new entry under the next id, last in the random order |
| AddrMan.AddrMan.SwapRandom | src/addrman.cpp:105-123 | swaps two ids and their recorded places |
| AddrMan.AddrMan.SelectTried | src/addrman.cpp:125-147 | swaps up to four drawn entries forward and returns where the oldest of them stood when it was drawn |
| AddrTable.EvictsOldest | src/addrman.cpp:133-146 | the returned position names the oldest drawn entry if and only if that entry was drawn from its own place |
| AddrTable.EvictsNewest | src/addrman.cpp:133-146 | in a full bucket the draws 1, 1, 2, 3 return the first entry even if it succeeded last of the four |
| AddrTable.SelectionShuffles | src/addrman.cpp:130-138 | whatever is drawn, the bucket is only reordered and the position lies in it |
| AddrMan.AddrMan.ShrinkNew | src/addrman.cpp:149-201 | drops the least terrible id of the bucket, or else the least recently seen of the four drawn, and nothing else |
| AddrMan.AddrMan.MakeTried | src/addrman.cpp:203-259 | takes the entry out of every new bucket and puts it in its tried bucket, evicting one if that is full |
| AddrMan.AddrMan.Good_ | src/addrman.cpp:261-310 | keeps the tables valid and every address, and the address is tried afterwards; with a positive time the times stay valid |
| AddrMan.AddrMan.Add_ | src/addrman.cpp:312-368 | keeps the tables valid, loses at most one entry that is not tried, and reports whether the address is new |
| AddrMan.AddrMan.Attempt_ | src/addrman.cpp:370-387 | counts an attempt on a known service and changes nothing else |
| AddrMan.AddrMan.Connected_ | src/addrman.cpp:509-526 | refreshes the time of a known service after twenty minutes and changes nothing else |
| AddrMan.AddrMan.GetAddr_ | src/addrman.cpp:493-507 | up to 23 percent and 2500 addresses, no host twice; only the random order changes |
| AddrMan.AddrMan.Write | src/addrman.h:279-317 | the entries in ascending order and the places of each bucket's entries |
| AddrMan.AddrMan.Read | src/addrman.h:318-379 | rebuilds tables and indexes from what is stored |
| AddrCheck.Check | src/addrman.cpp:434-490 | the check passes exactly if entries, counters, random order and both kinds of buckets agree |
| AddrCheck.OkPassesCheck | src/addrman.cpp:434-490 | consistent tables with sensible times pass it |
| AddrRehash.RehashedOkExactlyWhen | src/addrman.h:329-378 | entries hashed anew give a consistent manager exactly if no more than 64 go to one bucket and the stored buckets name only entries that were read |
| AddrRehash.BucketOverfilled | src/addrman.h:329-345 | sixty-five records that go to one bucket give an inconsistent one |
| AddrDisk.SavedFormLoads | src/addrman.h:248-380 | whatever form Write leaves can be read, into a consistent manager that is the old one renumbered |
| AddrDisk.LoadSaved | src/addrman.h:248-380 | reading what was written gives a consistent manager with the same entries under new ids in the same buckets, nothing lost |
| Framing.IsValid | src/protocol.cpp:47-75 | the start string, printable characters followed by zeros only, and an acceptable size |
| Framing.GetCommand | src/protocol.cpp:39-45 | the command up to its first zero byte, or all twelve bytes if the last is not zero |
| Framing.NextMessage | src/main.cpp:2981-3041 | one round of the loop on the buffer: wait, skip a header, or take a message |
| Framing.ProcessMessages | src/main.cpp:2964-3083 | the loop dispatches exactly the messages of the buffer in order and leaves the rest |
| Framing.CutAnywhere | src/main.cpp:2981-3041 | splitting a buffer at any point gives the same messages and the same bytes left |
| Framing.ChunkIndependent | src/main.cpp:2964-3083 | so does delivering a stream in chunks of any sizes |
| Framing.FrameDelivered | src/main.cpp:2981-3041 | a well-formed message behind any garbage is dispatched and the stream goes on right behind it |
| Framing.DispatchedStands | src/main.cpp:2981-3041 | whatever is dispatched stands in the stream, in that order and without overlap, under a proper header with the right checksum |
| Framing.BadHeaderSkipped | src/main.cpp:3004-3011 | a frame with an improper header is skipped, and the search goes on right behind the header |
| Framing.BadChecksumSkipped | src/main.cpp:3028-3037 | so is one with the wrong checksum, and its payload is searched again |
| Framing.IncompleteKept | src/main.cpp:3014-3026 | one whose payload is not complete stays in the buffer from its start on |
| Framing.BufferBounded | src/main.cpp:2987-3016 | what stays in the buffer is shorter than a header and a payload of the largest size |
| Base58.EncodeBase58 | src/base58.h:28-66 | the repeated division computes leading ones and the digits of the number |
| Base58.DecodeBase58 | src/base58.h:76-120 | skips white space around the digits, refuses anything else, and restores leading zeros |
| Base58.EncodeRoundTrip | src/base58.h:28-120 | every byte vector is read back |
| Base58.DecodeRoundTrip | src/base58.h:28-120 | every text over the alphabet is written again |
| Base58.EncodeInjective | src/base58.h:28-66 | two byte vectors never share a text |
| Base58.EncodeBase58Check | src/base58.h:132-140 | the text of the bytes followed by their checksum |
| Base58.DecodeBase58Check | src/base58.h:133-162 | computes the checked decoding, with nothing where it fails |
| Base58.CheckAccepts | src/base58.h:133-162 | that accepts exactly the texts that decode to some bytes followed by their checksum |
| Base58.CheckRoundTrip | src/base58.h:132-164 | bytes written with their checksum are read back |

## Left out

- ECDSA, SHA-256, RIPEMD-160, scrypt, AES and key handling: uninterpreted functions.
- Berkeley DB, files and disk-space checks: a committed and a pending map, and block files as a function from positions
  to blocks and transactions. Commits do not fail.
- Threads and locks: every handler is one atomic step.
- The memory pool, and the branches of FetchInputs and ConnectInputs that only it uses.
- The wallet, network sockets, peer bans, JSON-RPC, alerts, logging, mining and the user interface.
- BlockChecks.CheckBlock: the verdict on size, proof of work, the clock, signature operations and the Merkle root is a
  parameter.
- Testnet difficulty, checkpoints and orphan blocks.
- The signature cache of CheckSig: it only remembers answers.
- Select_ and GetChance of the address manager, which use floating point.
- Interpreter.EvalScript: does not say what a failed run leaves on the stack. VerifyScript gives up then, while
  CombineSignatures ignores the failure and goes on with that stack (src/script.cpp:1764-1767).
- The bodies of disabled opcodes, which are refused before they run.
- Pushes of 2 to the 32 bytes and more, whose length the source truncates.
- Wrap-around of 64-bit sums and counters, which the size limits keep out of reach.
- AddrDisk.LoadSaved: is about the list of records and indexes, not about the bytes of each field.
- AddrMan.AddrMan.Read: more stored buckets than there are buckets, for which the source writes past its vector.
- MinWork.MinimumExactlyWhen: the base is any block, where ProcessBlock takes the last checkpoint, and the time is not
  negative, since ProcessBlock refuses an earlier block before it asks for the minimum. No clock limits the times.
- AddrCheck.Check: the source's lookup of an unknown host would add a default entry to its map; here it only reads as 0.
- Signing.SigningIsComplete: needs that no signature equals data the signed script pushes, since OP_CHECKSIG would
  remove that push before hashing.
- Combine.CombinedScriptAccepted: leaves out slots that equal one of the keys, since OP_CHECKMULTISIG would remove that
  push from the signed script.
- Framing.ProcessMessages: the send buffer is never full, and what a handler does with its own copy of the payload is
  not modelled.
