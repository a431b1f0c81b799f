# XDAG in Dafny

A model of the parts of XDAG that are hardest to get right, with proofs. XDAG is a
ledger on a directed acyclic graph of blocks, written in C. The project follows the
program's own structure:

- **Ledger and main chain** (`client/block.c`): `Ledger`, `Undo`, `Conservation`,
  `Supply`, `MainBlocks`, `History`, `Flows`, `Runs`, `Chain`, `Difficulty`, `Node`, `ForkHeight`,
  `DList`, `OwnBlocks`, `Orphans`, `Client`. The recursive money functions are pure functions over
  account sequences; `Node.MainChain` holds the same state in fields and changes it in
  place, and each of its methods is proved to compute the corresponding function.
  `Client.Pool` joins it with the orphan lists.
- **Red-black tree index** (`ldus/rbtree.h`): `RedBlack` has the balancing rules on
  trees, `TreeIndex` the pointer code with tagged pointers and pointers to pointers.
  Where the C file has a routine once for each side, the model has it once with a side
  as argument.
- **Long arithmetic** (`dfslib/dfsrsa.c`): `Digits`, `LongArith`, `Karatsuba`,
  `Division`, `NumberTheory`, `Inverse`, `Montgomery`, `PowMod`. All numbers live in one
  array of 32-bit digits and are named by offsets, as the C pointers are, so that
  overlaps and scratch space are part of what is proved.
- **Synchronisation**: `WaitList` (`client/sync.c`), `Storage` (`client/storage.c`),
  `Descent` (the comparison of sums in `client/sync.c`), `Transport`
  (`client/transport.c`).
- **Cipher** (`dfslib/dfslib_crypt.c`): `Cipher`, with what reaches the ciphertext in `CipherLaws`.
- **JSON** (`client/json-rpc/cJSON.c`): `JsonText`, `JsonPrint`, `JsonString`, `JsonGrammar`,
  `JsonPrinted`, `JsonParse`, `Json`. The grammar says which texts stand for which values; the
  parser reads exactly those, and what the printer writes stands for the value it was given.

`Common` holds what several parts share. `dafny verify dfyconfig.toml` checks everything.

## What the model assumes

- Memory allocation and file access succeed; hashes are injective, so a block is named
  by its hash or by its position in the order of indexing.
- Difficulty sums do not overflow 128 bits; the node is a pool.
- The number of extra blocks stays within MAX_ALLOWED_EXTRA, so no block is reused.
- Signatures, own difficulty, clocks and random numbers are parameters.

## Where the code does not do what one would expect

- A rejected block returns 0 from `apply_block` but `unapply_block` always takes back its
  fee. `MainBlocks.RejectedFeeIsLost` shows a promotion and demotion that leave a wrong
  balance, whatever the reward; `MainBlocks.DemoteRestoresOwed` and, along any list of main
  blocks, `History.RollBackExactly` say that the accounts are restored if and only if the fees
  of newly referenced, rejected blocks sum to a multiple of 2^64 for each adopter, which can be
  read off the flags before the demotion.
- A chain switch does not always mark the new chain. Below the fork height marks are set before
  the roll-back, which may clear them again (`ForkHeight.MarkIsLost`); a roll-back from above the
  fork height to below it skips the marking altogether (`ForkHeight.ChainIsUnmarked`).
  `Node.MainChain.AddBlock` says that the invariant survives if and only if `Chain.SwitchMarks`
  holds: no mark of the new chain alone lies on the path of the old top, or, above the fork height,
  both chains mark the same blocks up to it. Only marks are lost, and `Node.Switched` says which:
  main blocks, heights and accounts are right in any case.
- An applied block with fee 2^64 - 1 returns the same value as "already referenced", so it is
  not adopted and stays referenced when the main block above it is rolled back.
  `History.SentinelFeeIsStranded` is a run of three promotions in which this happens; it needs a
  balance that wrapped around. `Undo.UnapplyFlags` and `MainBlocks.DemoteRestores` say that a
  roll-back is clean if and only if no such block was applied (and no fee is owed), and
  `MainBlocks.SolventNoCollision` that none is while inputs are distinct and all money is below 2^63.
- A block that names the same input twice can take more from it than it holds:
  `History.RepeatedInputOverdraws` promotes two blocks from an empty ledger and ends with a
  balance of 2^64 - 2^42. `Conservation.SettleWraps` says exactly when a balance wraps.
- `block_by_height(0)` answers the block below the oldest main block, not null.
- `xdag_request_block` can be called for a block that is indexed already: the chain of
  waiting blocks may end at one whose waiters are being released. `WaitList.AskedWhileReleased`
  delivers three blocks that do this. A hash asked for is indexed if and only if it is being released
  (`WaitList.ChainEnd`, `WaitList.Sync.Hold`), so a delivery that leaves its block waiting never
  asks for an indexed one (`WaitList.Sync.Deliver`).
- A request for blocks takes a reply with sums and has 16 sums written over its data
  (`Transport.OtherKindIsTaken`). A request that takes a reply takes the first one offered with its
  id, so this happens if and only if that first one carries sums (`Transport.KindIsAsSent`).
- The JSON parser takes more than RFC 8259 allows: every byte up to 32 is white space, strings may
  hold control characters, and four characters that are no hexadecimal digits after `\u` read as 0
  (`JsonString.LenientStrings`). Every string of the RFC with paired surrogates is read as the RFC
  means it (`JsonString.RfcStringsRead`), up to a zero byte, which ends a C string.
- Sectors 0 and 696960994382413259 are encrypted from the same key, whatever table and password
  (`CipherLaws.TwinSectors`); two sectors select the same registers if and only if their products
  are equal or one period apart (`CipherLaws.RegistersRepeat`).
- The header advises five bytes to spare for `cJSON_PrintPreallocated`. One byte beyond the text
  and its terminator is enough, and without it printing fails: `JsonPrint.Printer.PrintValue`.

## Model

| member | source | states |
|---|---|---|
| Undo.ApplyFrame | client/block.c:208-265 | applying a block references it and only blocks at most as late as it; flags and adopters of blocks referenced before stay, and what stays unreferenced does not change at all |
| Undo.ApplyRefs | client/block.c:216-225 | every block newly referenced by applying `b`, except `b`, is adopted by another one newly referenced, or was applied with fee 2^64 - 1 and has no adopter |
| Undo.ApplyResult | client/block.c:208-265 | for a block not referenced before, the value returned is its fee if it was applied and 0 if it was rejected |
| Undo.UnapplyFlags | client/block.c:267-298 | unapplying restores BI_MAIN_REF, BI_APPLIED and `ref` of every block that the application touched and leaves all other flags alone, if and only if no block below was applied with fee 2^64 - 1 |
| Undo.UnapplyAmount | client/block.c:267-298 | the exact effect of unapplying on every balance modulo 2^64, for every ledger: what applying added is taken back, plus the fees of adopted blocks that never paid them, minus what blocks mistaken for referenced ones had moved |
| Conservation.CheckedIsBacked | client/block.c:227-251 | a block with distinct inputs that passes the checks has every input covered by the input's balance at the check, and pays out no more than all the money there is |
| Conservation.AcceptedWhen | client/block.c:227-251 | a block is accepted if and only if every input is at most what its source holds, inputs and own balance fit in 64 bits, and they pay for the outputs and the fee; then the two sums are those of its links |
| Conservation.DrawnIsCovered | client/block.c:253-259 | at the moment the transfer loop moves an amount, the account it is drawn from still covers it and the one it goes to has room |
| Conservation.ApplyTotal | client/block.c:208-265 | when inputs are distinct and all money is below 2^63, applying neither makes nor loses money: the sum of all amounts plus the fee returned is what it was |
| Conservation.SettleWraps | client/block.c:253-263 | a balance wraps around 2^64 when a block is applied exactly when the net amount drawn from it exceeds it or overflows it |
| History.RepeatedInputOverdraws | client/block.c:208-363 | two promotions from an empty ledger after which the second block, naming the first one twice, has drawn its reward twice and left it a wrapped balance |
| History.SentinelFeeIsStranded | client/block.c:208-376 | three promotions and a demotion from an empty ledger after which a block applied with fee 2^64 - 1 is still referenced |
| Supply.GetSupply | client/block.c:327-344 | the halving loop returns the sum of all rewards up to the height plus the difference of start amount and reward of the last one, for every height below 2^27 |
| Supply.MintedIsApollo | client/block.c:300-326 | the sum of the rewards in closed form before the fork and relative to the post-fork reward after it |
| Supply.MintedBound | client/block.c:318-326 | the rewards of all heights together stay below 2^63 |
| Supply.RewardHalves | client/block.c:300-326 | one reward before the fork, another after it, halved every 2^21 heights |
| MainBlocks.DemoteExact | client/block.c:346-376 | promoting and then demoting a block restores each balance up to an explicit sum of unpaid fees, and all flags and adopters unless a block was mistaken for a referenced one |
| MainBlocks.DemoteRestores | client/block.c:346-376 | the accounts come back exactly if and only if no block below was applied with fee 2^64 - 1 and that sum is 0 modulo 2^64 for every account |
| MainBlocks.StaysReferenced | client/block.c:211-224 | a block mistaken for a referenced one is still referenced after the demotion |
| MainBlocks.SolventNoCollision | client/block.c:211-224 | with distinct inputs and all money below 2^63 no promotion applies a block with fee 2^64 - 1 |
| MainBlocks.LossIsOwed | client/block.c:208-298 | in a solvent ledger what an account misses is the sum of the fees of newly referenced, rejected blocks that name it as their adopter |
| MainBlocks.DemoteRestoresOwed | client/block.c:346-376 | the accounts come back exactly if and only if those fees sum to 0 modulo 2^64 for every account, by the flags before the demotion |
| MainBlocks.UnearnedZero | client/block.c:216-298 | when rejected blocks carry no fee, the sum of unpaid fees is 0 |
| MainBlocks.ApplyNoCollision | client/block.c:211-224 | applying never applies a block whose fee is mistaken for "already referenced" while all money is below 2^63 |
| MainBlocks.RejectedFeeIsLost | client/block.c:234-297 | for every reward, a rejected block with fee 5 costs its adopter 5 after a roll-back |
| History.ReplaySound | client/block.c:208-376 | after promoting any list of main blocks in order the sum of all amounts is the sum of their rewards, and the flags are closed under adoption |
| History.PromoteSound | client/block.c:346-363 | one more promotion keeps that, and the new main block was not referenced before |
| History.RollBack | client/block.c:365-376 | demoting the newest main block gives exactly the accounts from before its promotion |
| History.RollBackExactly | client/block.c:365-376 | for any list of main blocks, rejected fees included, the demotion gives those accounts if and only if the fees owed to each adopter sum to 0 modulo 2^64 |
| History.ReplayGrow | client/block.c:346-363 | indexing a further block does not change the replay of the main blocks |
| Flows.ApplyFlow | client/block.c:208-265 | with distinct inputs and all money below 2^63 each balance changes by what the newly applied blocks bring it and by the fees of those it adopted |
| Flows.BalanceIs | client/block.c:208-363 | after any list of main blocks every balance is the account's rewards, plus outputs to it, less inputs from it, plus what it kept as an applied block, plus the fees of the applied blocks it adopted |
| Runs.MoveKeeps | client/block.c:346-403 | indexing a block, promoting one and rolling one back each leave the accounts equal to the replay of the main blocks |
| Runs.RunRestores | client/block.c:346-403 | after any run of these that ends with the same main blocks, every amount, flag and adopter is what it was, and blocks indexed since are untouched |
| Runs.RunConserves | client/block.c:208-376 | in every run the sum of all amounts is the sum of the rewards of the main blocks |
| Chain.MarksDescending | client/block.c:822-828 | the greedy marking takes at most one block per epoch, in strictly falling time order, along the chosen links |
| Chain.MarkedWhen | client/block.c:822-828 | a block is marked if and only if it is on the path, its difficulty is strictly greater than that of its chosen link or it has none, and it is the latest such block of its epoch |
| Chain.EpochMarked | client/block.c:822-828 | every epoch in which the path adds difficulty has a mark |
| Chain.EpochSpan | client/time.h:16 | an epoch is 64 seconds in 1024ths of a second |
| Chain.MarksBelow | client/block.c:822-828 | the marking below any marked block is the marking started from it |
| Chain.SameTail | client/block.c:821-835 | the chains of the old and the new top share their marking below the common ancestor, also when the epochs meet in the middle |
| Difficulty.Weigh | client/block.c:677-744 | the difficulty chosen is the best over all links, the first link reaching it is remembered, and links of the same epoch count only below that epoch |
| Difficulty.RankIsGreatest | client/block.c:722-744 | the difficulty of a new block is the greatest of its own work, the difficulties of its links, and its work on top of any block of an earlier epoch that the chosen links of its links lead to |
| Difficulty.RankWitnessed | client/block.c:677-744 | each block's difficulty is the sum of own difficulties along a chain reachable from it with blocks in distinct epochs |
| Difficulty.RankedGrow | client/block.c:722-744 | no block has less difficulty than a block it links to |
| Node.MainChain.ApplyBlock | client/block.c:208-265 | the recursion in place computes the applied ledger, whose acceptance and balances `AcceptedWhen` and `ApplyFlow` describe, and its return value |
| Node.MainChain.UnapplyBlock | client/block.c:267-298 | the recursion in place computes the unapplied ledger and returns minus the fee |
| Node.MainChain.SetMainBlock | client/block.c:346-363 | promoting the oldest mark not yet main keeps flags, consecutive heights and the money in step |
| Node.MainChain.UnsetMainBlock | client/block.c:365-376 | demoting the newest main block leaves the money of the others as if it had never been promoted |
| Node.MainChain.Candidate | client/block.c:383-388 | the walk ends at the oldest mark that is not main and counts the marks above the main blocks |
| Node.MainChain.CheckNewMain | client/block.c:378-393 | promotes exactly when the oldest unpromoted mark is referenced, old enough and not the newest, and keeps the invariant; the accounts stay tied to the replay unless this promotion rejects a block with a fee; `ref` is written only where BI_REF is set |
| Node.MainChain.UnwindMain | client/block.c:395-403 | clears exactly the path above the stopping block, whatever else is marked; main blocks left are those of the old marks that remain, with the money as if the others had never been promoted |
| Node.MainChain.BlockByHeight | client/block.c:162-178 | finds the main block of every height from 1 to nmain, null above, and the block under the oldest one for 0 |
| Node.MainChain.FindAncestor | client/block.c:821-832 | where the walk from the new block meets the marked chain; below the fork height exactly the new marks passed are added |
| Node.EarlyMarks | client/block.c:821-838 | marks added before the roll-back come out as the marking of the new chain if and only if none of them lay on the path that the roll-back clears |
| Node.MarksOutcome | client/block.c:821-842 | the marks after the roll-back, at, above and below the fork height |
| Node.MarksLeft | client/block.c:821-852 | which marks are left when the new chain is not marked after the roll-back, and that main blocks and heights are right all the same |
| Node.MainChain.MarkChain | client/block.c:842-850 | after the roll-back the marks become the greedy marking of the new chain, which `MarkedWhen` describes |
| Node.MainChain.SwitchTo | client/block.c:805-857 | the whole switch: the new top is the heaviest block; main blocks, heights and money are those of its greedy marking in any case; exactly the marks of `MarkStays` are set, which is all of them if and only if `SwitchMarks` holds |
| Node.MainChain.AddBlock | client/block.c:622-880 | which blocks are added or refused, and the first link at fault; the top is the heaviest block with its rank; the accounts are the replay of the main blocks as long as inputs are distinct and no promotion rejected a block with a fee; after a switch exactly the marks of `MarkStays` are set, and the whole invariant survives if and only if there is no switch or `SwitchMarks` holds |
| Node.MainChain.constructor | client/block.c:99-118 | the empty node satisfies the invariant |
| ForkHeight.MarkIsLost | client/block.c:821-842 | a run of three blocks below any fork height after which the first block, although in the top's marking, is not marked |
| ForkHeight.ChainIsUnmarked | client/block.c:821-852 | a run of three blocks at fork height 1 after which no block is marked, not even the top |
| DList.SwapStrung | client/block.c:2374-2391 | redirecting the pointers around two neighbours exchanges them in both directions of the list |
| OwnBlocks.Own.Add | client/block.c:2393-2398 | a new own block goes to the end; the list stays sorted and the balance unchanged |
| OwnBlocks.Own.Order | client/block.c:2372-2391 | both swap loops end; the list is a permutation and sorted by non-increasing amount |
| OwnBlocks.Own.Accept | client/block.c:195-206 | an amount change leaves a sorted permutation, and the balance is the sum of the listed amounts modulo 2^64 |
| Orphans.Orphanage.RemoveOrphan | client/block.c:2153-2187 | the block becomes referenced, an extra one becomes ordinary and is saved together with referencing its links; nothing else changes, and lists, flags and counters stay in step |
| Orphans.Orphanage.AddBlock | client/block.c:866-880 | a block is on exactly the list its flags select if and only if it lacks BI_REF, counters are list lengths, links of blocks that are not extra carry BI_REF |
| Orphans.MainSparesOrphans | client/block.c:208-376 | promoting and demoting a referenced block writes `ref` only where BI_REF is set, so never over an orphan's `oref` |
| Client.Pool.AddBlock | client/block.c:622-880 | main chain and orphan lists together: every main block carries BI_REF and a block without BI_REF has no `ref`, so whatever is promoted, rolled back or taken off a list, neither use of the field `ref`/`oref` overwrites the other; lists, flags and counters stay in step, and so does the money |
| RedBlack.Insert | ldus/rbtree.h:188-195 | the return codes 0 to 3 describe exactly how far the subtree is from balanced |
| RedBlack.Remove | ldus/rbtree.h:205-214 | code 1 means one black node short with a black root, 0 balanced with the same black height, -1 unchanged |
| RedBlack.InsertContents | ldus/rbtree.h:188-195 | search order is kept; the stored nodes grow by exactly the new one, or the code is -1 if and only if the key is present and nothing changes |
| RedBlack.RemoveContents | ldus/rbtree.h:205-214 | search order is kept; exactly the node with the key disappears, or the code is -1 if and only if the key is absent |
| RedBlack.DepthIsLogarithmic | ldus/rbtree.h:39-214 | a balanced tree with n nodes is at most 2*log2(n + 1) deep |
| TreeIndex.Index.RotateAt | ldus/rbtree.h:39-53 | the pointer rotation leaves the rotated tree and touches nothing outside it |
| TreeIndex.Index.InsertBalanceAt | ldus/rbtree.h:55-93 | pointer rebalancing after an insertion refines the tree rule, colours in the pointers included |
| TreeIndex.Index.RemoveBalanceAt | ldus/rbtree.h:95-141 | pointer rebalancing after a removal refines the tree rule, with the pointer moved after the first rotation |
| TreeIndex.Index.SpliceAt | ldus/rbtree.h:152-162 | the outermost node takes the place, colour and children of the removed one although the field written through may belong to the removed node |
| TreeIndex.Index.RemoveEndAt | ldus/rbtree.h:143-185 | the recursive removal of the neighbour, with the field pointer redirected into the replacement |
| TreeIndex.Index.Add | ldus/rbtree.h:188-195 | the index stays a proper red-black tree with a black root, the stored set grows by the node, and on -1 not a pointer changes |
| TreeIndex.Index.Delete | ldus/rbtree.h:205-214 | the index stays a proper red-black tree with a black root, the stored set loses exactly the node with the key, and on -1 not a pointer changes |
| TreeIndex.Index.Find | ldus/rbtree.h:197-203 | a node is found if and only if one with the key is stored, and it is that node |
| TreeIndex.Index.Walk | ldus/rbtree.h:30-37 | the walk meets every stored node once, in strictly increasing key order |
| LongArith.Adc | dfslib/dfsrsa.c:141-161 | sum and carry together are the exact sum |
| LongArith.Sub | dfslib/dfsrsa.c:164-172 | difference and borrow together are the exact difference |
| LongArith.Cmp | dfslib/dfsrsa.c:122-129 | the order of the two numbers |
| LongArith.GetLen | dfslib/dfsrsa.c:114-119 | the number of significant digits |
| LongArith.Shr1 | dfslib/dfsrsa.c:176-186 | twice the result plus the bit returned is the number with the carry on top |
| LongArith.AddEq | dfslib/dfsrsa.c:132-138 | the exact sum up to a carry beyond the last digit; none arises when the first digit has room |
| LongArith.MulAddTo | dfslib/dfsrsa.c:195-203 | the sum grows by the product with the digit, the carry written above |
| LongArith.Mul | dfslib/dfsrsa.c:222-229 | the exact product in twice the length |
| Karatsuba.AddMiddle | dfslib/dfsrsa.c:587-605 | adding the middle term over digits that are still being read gives the exact value, and the carry stays inside the product |
| Karatsuba.KaratsubaMul | dfslib/dfsrsa.c:561-605 | the exact product for every length and operands, touching only product and scratch |
| Division.MulSub | dfslib/dfsrsa.c:208-219 | subtracts the multiple exactly; the borrow stays inside the window |
| Division.Estimate | dfslib/dfsrsa.c:656-676 | the estimated digit is positive and its multiple of the divisor never exceeds the window, also when the two-digit divisor wraps to 0 |
| Division.Mod | dfslib/dfsrsa.c:643-682 | terminates with the exact remainder, or -1 for a zero divisor |
| Division.DivMod | dfslib/dfsrsa.c:687-730 | terminates with quotient times divisor plus remainder equal to the dividend and the remainder below the divisor; no quotient digit carries |
| Inverse.Reduce | dfslib/dfsrsa.c:781-815 | the loop ends with the greatest common divisor and its cofactor |
| Inverse.FixLowBits | dfslib/dfsrsa.c:820 | adding the odd part reaches the right low bits without overflow |
| Inverse.ModInverse | dfslib/dfsrsa.c:770-823 | returns 0 exactly for coprime arguments, then with the inverse below the modulus |
| Montgomery.MontgomeryInit | dfslib/dfsrsa.c:835-848 | never fails for an odd modulus above 1 and leaves the factor k with k*N = -1 modulo R |
| Montgomery.MontgomeryReduce | dfslib/dfsrsa.c:854-864 | the number times R modulo N |
| Montgomery.MontgomeryMod | dfslib/dfsrsa.c:869-888 | below N*R the result is below N and equal to the number divided by R modulo N |
| PowMod.MontgomeryPowmod | dfslib/dfsrsa.c:894-934 | base to the exponent modulo N, for every length, odd N above 1, base and exponent |
| WaitList.Sync.Push | client/sync.c:45-89 | a block is filed once, in one list of each table, and counted; the answer says whether it is new or was last asked for at least REQ_PERIOD ago |
| WaitList.Sync.Chase | client/sync.c:144-166 | following the waiting blocks ends; the hash asked for is the end of their chain and is indexed if and only if it is being released, and nothing is asked for only if a block on the chain was asked for lately or the chain is a circle; exactly the blocks passed are marked as asked for now |
| WaitList.ChainEnd | client/sync.c:144-166 | a chain of waiting blocks that starts at a missing block ends at an indexed one if and only if that one is being released |
| WaitList.Sync.Hold | client/sync.c:141-168 | a block with a missing reference is filed and the end of its chain asked for, unless it waits already |
| WaitList.Sync.Pop | client/sync.c:92-121 | ends, and afterwards nothing waits for the block; what the release of its first waiter asks for comes first, and all requests are made with at least the blocks indexed before |
| WaitList.Sync.Retry | client/sync.c:103-115 | one waiter is taken out and added again; if it lacks a further reference, the end of its new chain is asked for |
| WaitList.Sync.Add | client/sync.c:132-171 | the mutual recursion ends and keeps the invariant of tables, index and requests; a block that stays waiting changes no index and asks only for its chain's end |
| WaitList.Sync.Deliver | client/sync.c:132-171 | the same for a block from outside, where no requested hash is indexed if the block stays waiting |
| WaitList.AskedWhileReleased | client/sync.c:92-166 | three deliveries, the last of which asks for the delivered block after it was indexed |
| WaitList.Sync.DeliverAll | client/sync.c:45-171 | blocks arriving in any order, with repeats, leave an index and a set of waiting blocks that are functions of the set that arrived |
| WaitList.RestDetermined | client/sync.c:45-171 | at rest exactly the grounded blocks are indexed, no block waits for an indexed hash, and each waiting block waits for its first missing reference |
| WaitList.SameDelivery | client/sync.c:45-171 | two nodes that received the same blocks agree on the index and on who waits for what |
| WaitList.ClosedDelivery | client/sync.c:45-171 | a link-closed set of valid blocks is indexed as a whole and the wait list is empty |
| WaitList.BadStays | client/block.c:622-638 | a block rejected for good stays rejected when the index grows |
| Storage.Store.Save | client/storage.c:29-145 | after any saves every cell of all four levels holds size and word sum of exactly the blocks in it |
| Storage.Store.LoadSums | client/storage.c:290-329 | refuses every span but 2^20, 2^24, ..., 2^48, and on an aligned one returns for each sixteenth the sum of exactly its blocks |
| Storage.SpanBits | client/storage.c:296-297 | the two masks that the load tests accept exactly those eight spans |
| Storage.TallySplit | client/storage.c:318-323 | sums of adjacent intervals add up modulo 2^64 |
| Storage.WordSumJoin | client/storage.c:66-145 | the word sum of a block is the sum of its words modulo 2^64, in whatever pieces they come |
| Storage.WordSumOne | client/storage.c:66-145 | a single word counts as itself |
| Descent.SumsTell | client/sync.c:232-234 | when one storage is part of the other, sums agree if and only if contents do |
| Descent.AskBlocks | client/sync.c:199-210 | whatever is lost or repeated in QUERY_RETRIES attempts, only remote blocks of the interval are stored, and all acceptable ones if an answer came |
| Descent.RequestBlocks | client/sync.c:193-239 | every missing block lies in a requested interval and is stored if it is acceptable, or in one whose request went unanswered; below the first interval nothing with equal contents is requested, answered or not, and nothing else changes; the return value says whether the first request was answered, and for blocks whether there were any |
| Descent.AllHeard | client/sync.c:193-239 | if every request is answered and every block acceptable, both storages agree on the interval |
| Transport.StepKeeps | client/transport.c:141-194 | every step of requester, repliers and id renewal keeps the protocol invariant |
| Transport.EveryRunServes | client/transport.c:333-397 | in every run a request accepts at most one reply, only one with its own id, and returns its result or the failure value |
| Transport.ToIntIs | client/transport.c:393 | a result is returned as the 32-bit number that agrees with it modulo 2^32 |
| Transport.KindIsAsSent | client/transport.c:141-194 | in every run a request that takes a reply takes the first one offered with its id; the reply has the request's kind if and only if that one has, and data are written if and only if that one carries sums |
| Transport.OtherKindIsTaken | client/transport.c:165-194 | a run in which a request for blocks takes a reply with sums and has its data overwritten |
| Transport.RunLeavesPast | client/transport.c:141-194 | no late or repeated reply touches a request that has returned, nor its data |
| Cipher.ModExact | dfslib/dfslib_crypt.c:96-103 | the three 32-bit steps take the exact 64-bit remainder |
| Cipher.MixArray | dfslib/dfslib_crypt.c:61-64 | the loop in place computes the mixed words |
| Cipher.UnmixArray | dfslib/dfslib_crypt.c:75-78 | the loop in place computes the unmixed words |
| Cipher.EncryptArray | dfslib/dfslib_crypt.c:139-146 | the array becomes its encryption from the sector's key, which `CipherLaws` describes, or stays when there is no password or the length is odd |
| Cipher.UncryptArray | dfslib/dfslib_crypt.c:170-179 | likewise for decryption |
| Cipher.UncryptNext | dfslib/dfslib_crypt.c:148-159 | decrypting a word recovers it and leaves the key that the recovered words lead to |
| Cipher.EncryptSector | dfslib/dfslib_crypt.c:130-137 | the sector form equals the array form on 128 words |
| Cipher.UncryptSector | dfslib/dfslib_crypt.c:161-168 | the sector form equals the array form on 128 words |
| Cipher.RoundTrip | dfslib/dfslib_crypt.c:52-179 | decryption undoes encryption for every table, password, key state and word sequence |
| Cipher.SameKeys | dfslib/dfslib_crypt.c:117-153 | the key state evolves on decryption exactly as on encryption |
| CipherLaws.XorBit | dfslib/dfslib_crypt.c:80-81 | each bit of an exclusive or is the sum of the bits modulo 2 |
| CipherLaws.MulLow | dfslib/dfslib_crypt.c:52 | a product keeps its low 32 bits |
| CipherLaws.KeyWordIs | dfslib/dfslib_crypt.c:80-81 | a key word is some value combined with the register that `t` selects if and only if that value is the 32 middle bits of `y` times the sum of `z` and the register that the high half of `x` selects |
| CipherLaws.KeyWordPlain | dfslib/dfslib_crypt.c:80-81 | the key word for the factors 0 and 2^16 |
| CipherLaws.TurnGoesRound | dfslib/dfslib_crypt.c:83-85 | a turn treats the four key words alike |
| CipherLaws.FedTells | dfslib/dfslib_crypt.c:117-119 | each plain word leads to a key of its own |
| CipherLaws.MixedWord | dfslib/dfslib_crypt.c:52-64 | each word is combined with the mixed word after it, the last one with the constant |
| CipherLaws.CipherWord | dfslib/dfslib_crypt.c:117-119 | each word is lowered by the last key word of the state that the words before it lead to |
| CipherLaws.KeysTell | dfslib/dfslib_crypt.c:117-119 | the same text starts with the same cipher word under two keys if and only if their key words agree |
| CipherLaws.SeedWords | dfslib/dfslib_crypt.c:106-116 | which password words and registers a sector's key starts from |
| CipherLaws.PasswordsTell | dfslib/dfslib_crypt.c:106-116 | for a table and sector, seeds agree if and only if passwords do |
| CipherLaws.SectorsScatter | dfslib/dfslib_crypt.c:108 | different sectors have different products |
| CipherLaws.RegistersRepeat | dfslib/dfslib_crypt.c:109-112 | two products select the same four registers if and only if they are equal or differ by the product of the four moduli |
| CipherLaws.TwinSectors | dfslib/dfslib_crypt.c:106-116 | two sectors that start from the same key for every table and password |
| CipherLaws.KnownAnswer | dfslib/dfslib_crypt.c:52-146 | the ciphertext of two zero words under registers of 1 and the empty password |
| CipherLaws.KnownKey | dfslib/dfslib_crypt.c:83-116 | the key after sixteen turns under registers of 0 and a password of equal words |
| JsonText.ControlEscape | client/json-rpc/cJSON.c:933-936 | a control character without a letter is printed as four lower-case hexadecimal digits |
| JsonText.EscapedIsGrammatical | client/json-rpc/cJSON.c:900-944 | escaped strings follow section 7 of RFC 8259 |
| JsonPrint.EscapedLength | client/json-rpc/cJSON.c:852-897 | the space counted for escapes is the space needed |
| JsonPrint.Printer.Ensure | client/json-rpc/cJSON.c:374-459 | the buffer grows so that the bytes asked for and one more fit, exactly if that is within INT_MAX, or within the caller's buffer |
| JsonPrint.Printer.PrintString | client/json-rpc/cJSON.c:828-947 | both the copying and the escaping path append the quoted string without leaving the buffer, exactly if there is room |
| JsonPrint.Printer.PrintValue | client/json-rpc/cJSON.c:472-1718 | succeeds if and only if the text, its terminator and one more byte fit, then appends the text of the value at its depth and restores the depth; no write leaves the buffer |
| JsonString.Utf8Inverse | client/json-rpc/cJSON.c:638-689 | the UTF-8 bytes decode to the code point |
| JsonString.Encode | client/json-rpc/cJSON.c:641-687 | the loop from the last byte to the first computes UTF-8 |
| JsonString.PairedSplits | client/json-rpc/cJSON.c:626 | a surrogate pair means the code point that UTF-16 splits into it |
| JsonString.HexUpper | client/json-rpc/cJSON.c:541-575 | upper-case digits count as lower-case ones |
| JsonString.LettersAreRfc | client/json-rpc/cJSON.c:763-785 | the eight letters of section 7 of RFC 8259, which undo those of the printer |
| JsonString.Utf16 | client/json-rpc/cJSON.c:578-696 | a literal outside the surrogates, or a proper pair, gives the UTF-8 of its code point; everything else fails |
| JsonString.FindEnd | client/json-rpc/cJSON.c:712-740 | finds the first quote that no backslash escapes, or that there is none, and counts the escapes before it |
| JsonString.SkipsSpread | client/json-rpc/cJSON.c:712-734 | of any two neighbouring bytes at most one is the second of an escape |
| JsonString.Unescape | client/json-rpc/cJSON.c:734-802 | succeeds if and only if every escape is well formed and gives what the string spells; on any input the output stays within the bytes allocated, the length minus the escapes |
| JsonString.RfcStringsRead | client/json-rpc/cJSON.c:750-802 | every string of section 7 of RFC 8259 with paired surrogates is read with the meaning the RFC gives it |
| JsonString.LenientStrings | client/json-rpc/cJSON.c:541-575 | strings outside the RFC that are read: a control character, and wrong digits after `\u` |
| JsonString.EscapedSpells | client/json-rpc/cJSON.c:900-944 | a printed string spells itself |
| JsonGrammar.StandsSame | client/json-rpc/cJSON.c:1213-1604 | the grammar is unambiguous: no text stands for two values or ends in two places |
| JsonPrinted.TextStands | client/json-rpc/cJSON.c:472-1718 | what is printed for a value, formatted or not and wherever it is in a buffer, stands for that value |
| JsonPrinted.ArrayLayout | client/json-rpc/cJSON.c:1436-1495 | commas in arrays, with a space if formatted |
| JsonPrinted.MemberLayout | client/json-rpc/cJSON.c:1607-1718 | an object's member on a line of its own, one tab further in, or without white space |
| JsonParse.Parser.SkipWhitespace | client/json-rpc/cJSON.c:963-982 | stops at the first visible character or at the terminator |
| JsonParse.Parser.ParseString | client/json-rpc/cJSON.c:699-825 | succeeds if and only if a string stands there, gives what it spells up to a zero byte, and never leaves the buffer |
| JsonParse.Parser.ParseNumber | client/json-rpc/cJSON.c:267-340 | succeeds if and only if `strtod` reads something of the run of at most 63 number characters, and goes on behind it |
| JsonParse.Parser.ParseValue | client/json-rpc/cJSON.c:1213-1265 | succeeds if and only if some value stands there that the nesting limit has room for, and gives that value and its end; on any input the offset stays in the buffer |
| JsonParse.Parser.ParseArray | client/json-rpc/cJSON.c:1342-1433 | likewise for arrays |
| JsonParse.Parser.ParseObject | client/json-rpc/cJSON.c:1498-1604 | likewise for objects |
| JsonParse.Parse | client/json-rpc/cJSON.c:1003-1084 | accepts exactly the texts that, after a byte order mark and white space, start with a value within the nesting limit, followed by nothing but white space if that is required, and gives that value |
| JsonParse.DocumentOnce | client/json-rpc/cJSON.c:1003-1084 | a text means at most one value |
| Json.RoundTrip | client/json-rpc/cJSON.c:1086-1718 | if the C library reads the numbers back, printing, formatted or not, and parsing gives the value back if and only if it is nested at most CJSON_NESTING_LIMIT deep and its text and two bytes fit in INT_MAX |

## Left out

- Signature checks, wallet keys, SHA-256 and RandomX: foreign code; their verdicts and the own difficulty of a block are parameters.
- The balance `g_balance` and the own-blocks list are modelled beside the ledger, not inside `Node.MainChain`.
- Node.MainChain.AddBlock: the fork height is a field of the node, where the C code picks one of two constants.
- History.ReplaySound: rewards are computed at every height; from 2^27 on the shift in `get_amount` is undefined in C, so the statement about the program ends there.
- Runs.RunConserves: likewise for main chains of 2^27 blocks and more.
- `total_nmain`, `pretop_main_chain`, statistics and the block cache: bookkeeping that nothing modelled here reads.
- Supply.GetSupply: heights below 2^27, because later the shift count of the reward reaches the width of the amount type.
- The block-reuse branch of `add_block_nolock` and `remove_ourblock`: excluded by the bound on extra blocks.
- `ldus_rbtree_walk_up`: a post-order walk used to free nodes; it would add only an easy member.
- TreeIndex.Index.Add: nodes are compared by an integer key fixed while the node is linked, where the C macro takes any `lessthan`.
- The inline-assembly multipliers, primality tests, key generation and the plain `dfsrsa_powmod`: only the portable and the Montgomery routines are modelled. The fallback to `dfsrsa_powmod` is proved unreachable for odd moduli above 1.
- WaitList.Sync.Deliver: the clock is read once for a delivery, relaying by time-to-live and the connection of an entry are left out, and the checks before and after the reference loop do not change with the clock.
- `pool_block_thread`, which indexes blocks without draining the wait list.
- Descent.RequestBlocks: what each attempt brings (an answer, part of the blocks and then a timeout, no peer) is a parameter; a received block is stored if and only if another parameter accepts it and it is new, and the remote storage does not change meanwhile.
- The repair path of `correct_storage_sum` (`add` = 0), which does not subtract the old value from the upper levels, and times from 2^48 on.
- Transport.EveryRunServes: one requester at a time, random ids are fresh, and a reply bears the id of a request that was sent or one nobody drew; the callback that receives blocks before the reply is left out.
- Cipher: setting the password and sector 0.
- JsonParse.Parser.ParseNumber: `strtod` is a parameter; a number is known by its printed form, so numbers that are not finite and the choice between 15 and 17 digits are left out, and so is `valueint`.
- Raw items and `cJSON_Utils.c`.
- JsonPrint.Printer.Ensure: allocation always succeeds.
- Pool payments, sockets, threads, terminal, HTTP, RPC, configuration, logging, CRC and address codecs.
