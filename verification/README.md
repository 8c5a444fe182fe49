# Verified models of cachegrand's data structures, locks and hashes

This project models the parts of cachegrand whose correctness is hard to see from the code, and
proves what their callers rely on:

- the **adaptive radix tree** (`art_spsc.c`): nodes on the heap in four layouts that grow and
  shrink, prefixes compressed to at most ten stored bytes, splitting and merging; the tree object
  refines a map from keys to values;
- the **paged lock-free container** (`queue_mpmc.c`): every interleaving of any number of threads;
- the **transactional reader/writer spinlock** and the list of locks a transaction holds
  (`transaction.h`, `transaction.c`);
- **CRC-32C** (section 12.1 of RFC 3720): the slicing-by-8 form, and the three-lane form that is
  joined with operators over GF(2), against the bit-by-bit definition;
- the **glob matcher** (`utils_string.c`), against a declarative matcher;
- the **slot bitmaps** (concurrent and sequential), the **bounded ring** with 32-bit indices, the
  rounding to powers of two, and the **doubly linked list** on the heap.

`dafny verify dfyconfig.toml` checks everything.

## How the models are built

*Objects and loops.*  A structure whose fields the source changes is a class with those fields; a
loop of the source is a loop with invariants.  The radix tree has two levels.  `ArtLayout`,
`ArtTree`, `ArtInsert`, `ArtDelete`, `ArtMap`, `ArtRelated`, `ArtIter` and `ArtPrefix` define the
operations on trees as values and prove what they do.  `ArtHeap` and the modules named after it hold the nodes on
the heap, changed in place, and prove that each method computes the matching operation: `Tree(p)` is
the tree a pointer stands for, `Repr(p)` the objects it is made of, and `Good(p)` says that no node
is shared.

*Concurrency.*  The lock-free structures are transition systems with one access to shared memory per
step, for any number of threads: `Enabled` and `Apply` define a step, `Inv` is what every step
keeps, and `IsRun` is a run.  Memory is sequentially consistent.  The modules whose names end in
`Calls`, `Alone` or `Laws` say what the calls are given and what they answer.

*Machine integers.*  Wrap-around is written out where it matters: 32-bit ring indices and list
counts, byte counters of the bitmaps and of the largest tree node, 16-bit transaction indices and
shard numbers, 64-bit rounding.  CRC registers are bit-vectors.

*Memory that is not the caller's.*  Some comparisons of the radix tree read past the end of the key.
The function `beyond` gives these bytes; it is arbitrary in every theorem, so no result depends on
it.  Only the bytes after the key of a leaf are known: a leaf is allocated as zeros and padded, so
the four bytes after its key are 0.  The glob matcher reads the byte after the pattern, which is the
parameter `after`.

## What turned out not to hold

- `SlotsBitmapRace.TwoOwners`: the concurrent bitmap can hand out a slot twice.  An acquire reads the
  shard twice (lines 138 and 148), and the second value goes into the new word while the first is
  the one compared.  `SlotsBitmapMpmc.RunsExactly` says exactly which runs are sound.
- `TransactionRelock.TwoWritersReached`: a transaction that takes a lock for write twice frees it
  twice, and two others end up writing.  `TransactionDiscipline.RunsExactly` says exactly which runs
  keep the lock words true, namely those that take none of four failing branches;
  `TransactionDiscipline.DisciplineSuffices` says what callers can keep to,
  `TransactionRelock.RelockExactly` says exactly which write calls go wrong, and
  `TransactionRelock.RelockFreesHeldLock` what follows from each of them.
  `TransactionDiscipline.UpgradeSafeExactly` says exactly when an upgrade is safe.
- `ArtPrefix.MisledTree`: iteration by prefix can visit keys that do not have the prefix, when no
  stored key has it.  `ArtPrefix.FoundExactly` says exactly when it visits the right keys.
- `ArtInsert.StoredApart`: a sound tree cannot hold a key and a proper prefix of it, yet insertion
  accepts both.  `ArtInsert.InsertKeepsExactly` says exactly when insertion into a sound tree keeps
  it sound and stores the key, and `ArtMap.RunsExactly` says it for whole runs.
  `ArtRelated.OthersUnchanged`, `ArtRelated.ExtensionExactly` and `ArtRelated.PrefixFound` say what
  searches find afterwards: all other keys as before, and the new one depending on zero bytes.
- `Glob.LeadingDashHangs`: a character class that starts with a dash never returns, and
  `Glob.ReturnsExactly` says exactly which patterns can do that.  When the pattern is used up the
  matcher compares the byte after it; `Glob.StaysInPatternExactly` says exactly when no pattern runs
  past its end.  `Glob.AgreesExactly` says exactly when the matcher agrees with the declarative one.
- `SlotsBitmapCalls.StaleCounter`: the concurrent bitmap can pass by a shard that has a free slot;
  `SlotsBitmapCalls.PassedIsFull` says when it does not.  `SlotsBitmapCalls.StepZeroNeverEnds`: an
  acquire with a step of 0 can fail to end.
- `SlotsBitmapSpsc.Bitmap.Release`: a release keeps the shard number in 16 bits; its contract says
  exactly when it frees the slot and nothing else.

## Model

| member | source | states |
|---|---|---|
| `ArtHeapTree.Art.constructor` | src/data_structures/art_spsc/art_spsc.c:151-155 | a new tree holds no key and owns no node |
| `ArtHeapTree.Art.Insert` | src/data_structures/art_spsc/art_spsc.c:702-711 | for every key, what is returned is the old value in the map; the tree then holds the map with this key set, size included, if and only if the key was present or is neither a prefix nor an extension of a present key; only nodes of the tree are written |
| `ArtHeapTree.Art.InsertNoReplace` | src/data_structures/art_spsc/art_spsc.c:722-731 | as insertion, for every key, but a key that is present keeps its value |
| `ArtHeapTree.Art.Delete` | src/data_structures/art_spsc/art_spsc.c:902-911 | the map loses this key and no other, and its value is returned |
| `ArtHeapTree.Art.Search` | src/data_structures/art_spsc/art_spsc.c:292-328 | the loop finds exactly the value the map has for the key, although it compares only stored prefix bytes on the way |
| `ArtHeapTree.SearchNode` | src/data_structures/art_spsc/art_spsc.c:308-326 | one turn of the loop, with its prefix loop and child look-up, leaves the result of the search to the next pointer |
| `ArtHeapTree.Art.Iterate` | src/data_structures/art_spsc/art_spsc.c:989-991 | the callback sees the contents in strict key order; it has answered 0 to all pairs before the last one it saw, and the result is its first other answer, or 0 when it saw all |
| `ArtHeapTree.Art.IteratePrefix` | src/data_structures/art_spsc/art_spsc.c:1019-1075 | only pairs of the contents are visited, in strict key order and up to the first answer that is not 0; if some key has the prefix, exactly the pairs whose key has it |
| `ArtHeapInsert.Insert` | src/data_structures/art_spsc/art_spsc.c:609-691 | for every key, insertion in place gives the pointer to store back, which stands for the tree that insertion on values gives; nothing is shared and all other objects it uses are new |
| `ArtHeapInsert.SplitLeafNode` | src/data_structures/art_spsc/art_spsc.c:627-643 | for every key, a leaf that does not match becomes a node over the old and the new leaf, without sharing |
| `ArtHeapInsert.SplitPrefixNode` | src/data_structures/art_spsc/art_spsc.c:654-679 | for every key, a new node takes the common part of a prefix, and the old node keeps the rest in place |
| `ArtHeapInsert.FindMismatch` | src/data_structures/art_spsc/art_spsc.c:584-607 | where the key leaves the compressed prefix, also beyond the ten stored bytes, which are read from the lowest leaf |
| `ArtHeapInsert.CheckPrefixLoop` | src/data_structures/art_spsc/art_spsc.c:256-268 | the loop gives the number of stored prefix bytes that the key shares |
| `ArtHeapInsert.CommonLoop` | src/data_structures/art_spsc/art_spsc.c:430-439 | the first place where two keys differ or one ends |
| `ArtHeapDelete.Delete` | src/data_structures/art_spsc/art_spsc.c:847-892 | deletion in place gives the pointer to store back, which stands for the tree without the key |
| `ArtHeapDelete.RemoveKid` | src/data_structures/art_spsc/art_spsc.c:797-845 | a node left with one child is replaced by it, and the child takes over prefix and branch byte in place |
| `ArtHeapOps.AddKid` | src/data_structures/art_spsc/art_spsc.c:447-579 | a child is added in place, or a full node is replaced by a larger one; the rest of the tree is untouched and nothing becomes shared |
| `ArtHeapOps.DropKid` | src/data_structures/art_spsc/art_spsc.c:733-801 | a child is removed in place, or a small node is replaced by a smaller one |
| `ArtHeapOps.WriteChild` | src/data_structures/art_spsc/art_spsc.c:682-685 | the write through the child reference replaces one subtree |
| `ArtHeap.FindMinimum` | src/data_structures/art_spsc/art_spsc.c:331-371 | the leaf reached by the lowest children is a leaf of this tree, one of its objects, and has the lowest key |
| `ArtHeapIter.Iterate` | src/data_structures/art_spsc/art_spsc.c:914-977 | the callback sees the leaves in the order of the branch bytes, up to the first non-zero answer, which is returned |
| `ArtHeapIter.IteratePrefix` | src/data_structures/art_spsc/art_spsc.c:1019-1075 | the loop hands the pairs that the walk finds to the callback, up to the first non-zero answer |
| `ArtInsert.InsertKeepsExactly` | src/data_structures/art_spsc/art_spsc.c:609-691 | for every sound tree, insertion keeps the structure invariant (leaves share the whole compressed path, stored bytes are those of the path, branch bytes are distinct, occupancy stays in range), stores the key, leaves all others and finds the old value, if and only if the key is present or is neither a prefix nor an extension of a present key |
| `ArtInsert.SplitPrefixExactly` | src/data_structures/art_spsc/art_spsc.c:654-679 | splitting a prefix, also one longer than what is stored, keeps the invariant and the other keys if and only if the key fits the keys below |
| `ArtInsert.SplitLeafExactly` | src/data_structures/art_spsc/art_spsc.c:627-643 | splitting a leaf keeps the invariant and both keys if and only if neither key is a prefix of the other |
| `ArtInsert.NodeMismatch` | src/data_structures/art_spsc/art_spsc.c:584-607 | the mismatch position is where key and path first differ, or the key follows the whole path |
| `ArtDelete.DeleteKeeps` | src/data_structures/art_spsc/art_spsc.c:847-892 | deletion keeps the structure invariant, removes the key and no other, and finds its value, whatever lies past the end of the key |
| `ArtDelete.RemoveChildInv` | src/data_structures/art_spsc/art_spsc.c:797-845 | removing a child keeps the invariant, also when the node is merged into its only child |
| `ArtDelete.CollapseKeeps` | src/data_structures/art_spsc/art_spsc.c:803-825 | the joined prefix of a merged node is the first ten bytes of the joined paths |
| `ArtTree.SearchIsLeaf` | src/data_structures/art_spsc/art_spsc.c:292-328 | a search returns a value if and only if that pair is stored |
| `ArtTree.LeafExtends` | src/data_structures/art_spsc/art_spsc.c:166-250 | a stored key extends the path of every node above it and is under the child of its next byte |
| `ArtMap.StepRefinesExactly` | src/data_structures/art_spsc/art_spsc.c:292-911 | each of the four operations, on every key, returns what the map operation returns; it changes the tree as that changes the map, including the size, if and only if it is not the insertion of a prefix or an extension of another present key |
| `ArtMap.RunRefines` | src/data_structures/art_spsc/art_spsc.c:292-911 | every run of operations returns what the same run on a map returns, up to and including the first insertion of a prefix or an extension of another present key |
| `ArtMap.RunsExactly` | src/data_structures/art_spsc/art_spsc.c:292-911 | a run of operations runs to its end with a tree that holds the map after every operation, if and only if it has no such insertion |
| `ArtMap.RunExists` | src/data_structures/art_spsc/art_spsc.c:292-911 | every sequence of operations without such an insertion is a run of the tree, whatever lies past the keys, and returns what the map returns |
| `ArtInsert.StoredApart` | src/data_structures/art_spsc/art_spsc.c:634-643 | of two keys in a sound tree, neither is a prefix of the other |
| `ArtRelated.OthersUnchanged` | src/data_structures/art_spsc/art_spsc.c:609-691 | after the insertion of any key into a sound tree, also a related one, the search for every other key returns what it returned before |
| `ArtRelated.ExtensionExactly` | src/data_structures/art_spsc/art_spsc.c:634-643 | after the insertion of an extension of a stored key into any sound tree, it and all stored keys are found if and only if it does not go on with 0 |
| `ArtRelated.PrefixFound` | src/data_structures/art_spsc/art_spsc.c:634-691 | after the insertion of a proper prefix of stored keys into any sound tree: with one such key it is found if and only if that key does not go on with 0; with several, of which none goes on with 0, if and only if the byte after it in memory is 0; with several it is not found if that byte is not 0 or all go on with 0 |
| `ArtLayout.AddKeeps` | src/data_structures/art_spsc/art_spsc.c:447-579 | adding a child at a new byte changes the map of children at that byte only, through all growth steps, and keeps occupancy in 2..4, 4..16, 13..48, 38..256 |
| `ArtLayout.RemoveKeeps` | src/data_structures/art_spsc/art_spsc.c:733-801 | removing a child changes the map of children at that byte only, through all shrinking steps; only a node of two can drop out of range |
| `ArtLayout.FirstIs` | src/data_structures/art_spsc/art_spsc.c:331-371 | the lowest child is that of the lowest byte, in every layout |
| `ArtLayoutLoops.FindChild` | src/data_structures/art_spsc/art_spsc.c:166-250 | looking up a byte gives its child, in every layout |
| `ArtLayoutLoops.AddChild` | src/data_structures/art_spsc/art_spsc.c:447-579 | the array loops of addition and growth compute the layout with the child added |
| `ArtLayoutLoops.RemoveChild` | src/data_structures/art_spsc/art_spsc.c:733-801 | the array loops of removal and shrinking compute the layout with the child removed |
| `ArtLayoutLoops.FirstChild` | src/data_structures/art_spsc/art_spsc.c:331-371 | the loop over a node finds its lowest child |
| `ArtIter.LeavesHas` | src/data_structures/art_spsc/art_spsc.c:914-977 | the listed pairs are the stored pairs |
| `ArtIter.LeavesSorted` | src/data_structures/art_spsc/art_spsc.c:914-977 | the listed keys strictly increase in lexicographic order, so each pair is visited once |
| `ArtIter.UptoWalks` | src/data_structures/art_spsc/art_spsc.c:920-931 | a walk sees a prefix of the pairs, the callback answered 0 to all but the last of them, and it ended there with that answer or saw all |
| `ArtIter.UptoAll` | src/data_structures/art_spsc/art_spsc.c:979-991 | a callback that never stops sees every pair |
| `ArtIter.MinimumIsFirst` | src/data_structures/art_spsc/art_spsc.c:419-421 | the minimum is the first key of the order |
| `ArtPrefix.FoundExactly` | src/data_structures/art_spsc/art_spsc.c:1019-1075 | the keys visited are exactly those with the prefix if and only if the walk does not end inside a prefix after it had left one; and then no key has the prefix |
| `ArtPrefix.PrefixVisited` | src/data_structures/art_spsc/art_spsc.c:1019-1075 | if some stored key has the prefix, exactly the keys with the prefix are visited |
| `ArtPrefix.FoundSorted` | src/data_structures/art_spsc/art_spsc.c:1019-1075 | whatever is visited is stored, and is visited in key order |
| `ArtPrefix.MisledTree` | src/data_structures/art_spsc/art_spsc.c:1047-1070 | three insertions into an empty tree after which a prefix that no key has leads to two keys |
| `QueueMpmcSteps.Keeps` | src/data_structures/queue_mpmc/queue_mpmc.c:92-248 | every access of every push and pop keeps the invariant |
| `QueueMpmcCalls.ArgumentsConserved` | src/data_structures/queue_mpmc/queue_mpmc.c:88-248 | in every interleaving, the arguments of all push calls so far are the values of pushes under way, those in slots and those that pops returned; nothing is lost or duplicated |
| `QueueMpmcCalls.ArgumentsAtRest` | src/data_structures/queue_mpmc/queue_mpmc.c:88-248 | when no call is under way, what the pushes were given is what the pops returned and what the slots hold |
| `QueueMpmcCalls.CallsAnswered` | src/data_structures/queue_mpmc/queue_mpmc.c:88-248 | in every interleaving, the calls of each thread are answered one by one and in order: a push by its own argument, a pop by a value or by nothing |
| `QueueMpmcCalls.ReturnedArePopped` | src/data_structures/queue_mpmc/queue_mpmc.c:222-245 | the values that pops answered with are the values taken out of slots |
| `QueueMpmcCalls.OnePagePerPush` | src/data_structures/queue_mpmc/queue_mpmc.c:112-120 | there is never more than one page more than there were push calls, since a push that tries again keeps its page |
| `QueueMpmcRuns.SlotsBalance` | src/data_structures/queue_mpmc/queue_mpmc.c:146-156 | for each slot, pending pushes plus its value minus pending pops is 1 below the head length and 0 above it |
| `QueueMpmcRuns.HeadCountsSlots` | src/data_structures/queue_mpmc/queue_mpmc.c:105-128 | the head length is the page number times the page size plus the index plus one |
| `QueueMpmcRuns.NeverStuck` | src/data_structures/queue_mpmc/queue_mpmc.c:92-248 | in every run, all pages and slots a call refers to exist, so that a call once begun can go on; only the compare-and-swap depends on the head |
| `QueueMpmcRuns.WaitingPopHasPush` | src/data_structures/queue_mpmc/queue_mpmc.c:225-242 | the slot of a pop exists, and if it is empty a push is under way for it |
| `QueueMpmcRuns.WaitingPushHasPop` | src/data_structures/queue_mpmc/queue_mpmc.c:146-156 | the slot of a push exists, and if it is full a pop is under way for it |
| `QueueMpmcRuns.WaitingLinkHasPush` | src/data_structures/queue_mpmc/queue_mpmc.c:195-200 | the page a pop looks at exists, and if it is not linked yet the push that links it is under way |
| `QueueMpmcRuns.ChainNeverForks` | src/data_structures/queue_mpmc/queue_mpmc.c:105-142 | the chain of pages only grows at its end, and a link once set never changes |
| `QueueMpmcCalls.CallsAreStack` | src/data_structures/queue_mpmc/queue_mpmc.c:88-248 | with one thread, the answers are exactly those of a stack to the calls and their arguments, and between calls the slots below the head are the stack |
| `QueueMpmcAlone.PushCompletes` | src/data_structures/queue_mpmc/queue_mpmc.c:88-171 | from every sound state at rest, a push that nobody disturbs ends within six accesses, with its argument in the slot of the head, one further up |
| `QueueMpmcAlone.PopCompletes` | src/data_structures/queue_mpmc/queue_mpmc.c:173-248 | from every sound state at rest, a pop that nobody disturbs ends within seven accesses, with nothing if and only if the container is empty, and otherwise with what the slot of the head held |
| `TransactionLocks.Keeps` | src/transaction.h:103-324 | every access of every lock, upgrade and release that takes no failing branch keeps the invariant |
| `TransactionLocks.RunsAreSafe` | src/transaction.h:216-324 | in every interleaving without a failing branch, while a transaction holds a lock for write no other holds it for read or write, and the reader count is that of granted and waiting readers |
| `TransactionLocks.ReleasedAtRest` | src/transaction.c:89-116 | when no transaction is live, every lock is free and has no readers |
| `TransactionCalls.WriteAlone` | src/transaction.h:216-289 | a write or upgrade call that nobody disturbs, whatever the transaction has listed, makes the free word name the caller and lists the lock |
| `TransactionCalls.ReadAlone` | src/transaction.h:291-324 | a read call that nobody disturbs, on a lock without a writer, adds one reader and lists the lock |
| `TransactionCalls.SwapWaits` | src/transaction.h:103-130 | the swap of a write call leaves all as it is exactly when the word is not the one it expects |
| `TransactionCalls.ReadWaits` | src/transaction.h:291-312 | a read call waits exactly while there is a writer |
| `TransactionCalls.WriteGivesUp` | src/transaction.h:225-233 | a write call that gives up leaves all as it was |
| `TransactionCalls.WriteNotListed` | src/transaction.h:235-246 | a write call that takes the lock and cannot list it gives it back |
| `TransactionCalls.ReadGivesUp` | src/transaction.h:300-323 | a read call that gives up takes its announcement back |
| `TransactionCalls.ReadNotListed` | src/transaction.h:308-323 | a read call that is granted the lock and cannot list it takes its announcement back |
| `TransactionCalls.ReleaseAlone` | src/transaction.c:89-116 | from every sound state, a release that nobody disturbs ends: the locks held for write are free, each read lock is counted off, no other word changes |
| `TransactionDiscipline.KeepsExactly` | src/transaction.h:103-324 | from every sound state, an access leaves ids unique, each word naming its one holder and counting its readers, and writers alone, if and only if it takes none of four branches: an id in use, a write call that finds its own id, the swap of an upgrade while another read lock is granted, a wrap of the reader count |
| `TransactionDiscipline.RunsExactly` | src/transaction.h:103-324 | whatever accesses are made from the start, all of this holds all along if and only if none of these branches is taken |
| `TransactionDiscipline.DisciplineSuffices` | src/transaction.h:216-324 | callers that use fresh ids, take a lock for write at most once and upgrade an own read lock never reach such a branch, so that mutual exclusion and the reader counts hold |
| `TransactionDiscipline.NeverOwnedAlready` | src/transaction.h:222-233 | a disciplined write call never finds the lock owned by its own transaction |
| `TransactionRelock.RelockExactly` | src/transaction.h:222-233 | from every sound state, a write call, with or without upgrade, leaves each word naming its one holder if and only if the transaction did not hold the lock for write |
| `TransactionRelock.RelockFreesHeldLock` | src/transaction.c:89-116 | from every sound state, after a write call on a lock held for write, whatever else is held and however many readers wait, the release frees the word while the transaction still holds the lock |
| `TransactionRelock.RelockBreaksExclusion` | src/transaction.h:222-238 | from every such state in which another transaction can start and announce itself, it is granted the lock for read while the first holds it for write, by steps that are all disciplined |
| `TransactionRelock.TwoWritersReached` | src/transaction.h:222-238 | a run from the initial state, undisciplined only in one plain write call, that ends with two writers of one lock |
| `TransactionDiscipline.UpgradeSafeExactly` | src/transaction.h:252-289 | an upgrade on a word with one reader is safe if and only if no other transaction has that read lock granted |
| `TransactionLists.NthClosedForm` | src/transaction.c:67-73 | the n-th transaction index of a worker in closed form, with its 16-bit wrap |
| `TransactionLists.IdsDistinct` | src/transaction.c:67-76 | any 65535 consecutive ids of one worker are distinct |
| `TransactionLists.WorkersDistinct` | src/transaction.c:75-76 | ids of different workers are distinct |
| `TransactionLists.IdSource.Acquire` | src/transaction.c:60-87 | the next id, which is never 0 |
| `TransactionLists.ReleaseUndoesTake` | src/transaction.c:89-116 | releasing a list after taking it gives all lock words back if and only if the locks taken for write were free |
| `TransactionLists.LocksList.Expand` | src/transaction.c:46-54 | doubling the list keeps its entries |
| `TransactionLists.LocksList.Add` | src/transaction.h:190-214 | an entry is appended, whatever doubling happens |
| `TransactionLists.LocksList.Release` | src/transaction.c:89-116 | the loop undoes every entry of the list, in order |
| `Crc32c.FeedConcat` | src/hash/hash_crc32c_sw.c:84-105 | feeding two pieces one after the other feeds their concatenation |
| `Crc32c.FeedXor` | src/hash/hash_crc32c_sse42.c:91-107 | the register is linear: the effect of a start value is that of feeding as many zero bytes |
| `Crc32c.HashConcat` | src/hash/hash_crc32c_sw.c:77-107 | hashing a piece with the hash of the piece before as seed hashes both together |
| `Crc32c.TestVector` | tests/unit_tests/hash/test-hash-crc32c.cpp:25 | the definition gives the value that the unit test expects |
| `Gf2Matrix.MatrixTimes` | src/hash/hash_crc32c_common.c:48-61 | the loop computes the product of a matrix over GF(2) and a vector |
| `Gf2Matrix.MatrixSquare` | src/hash/hash_crc32c_common.c:63-70 | the loop computes the square of a matrix |
| `Gf2Matrix.SquaredFeeds` | src/hash/hash_crc32c_common.c:63-70 | the square of the operator that feeds k zero bits feeds 2k zero bits |
| `Gf2Matrix.OneBitFeeds` | src/hash/hash_crc32c_common.c:79-85 | the start matrix feeds one zero bit |
| `Gf2Matrix.ZerosOp` | src/hash/hash_crc32c_common.c:72-108 | for every length, the operator feeds as many zero bytes as the highest power of two in it |
| `Gf2Matrix.FloorPow2Exact` | src/hash/hash_crc32c_common.c:93-103 | that is the length itself if and only if it is a power of two |
| `Crc32cTables.Zeros` | src/hash/hash_crc32c_common.c:110-124 | the four tables hold the operator for each byte of a word |
| `Crc32cTables.ShiftIsZeroBits` | src/hash/hash_crc32c_common.c:126-132 | four look-ups apply the operator to every 32-bit value |
| `Crc32cSse42.ThreeLanes` | src/hash/hash_crc32c_sse42.c:91-127 | three lanes joined by two shifts feed all three blocks |
| `Crc32cSse42.Sse42.constructor` | src/hash/hash_crc32c_sse42.c:60-64 | the tables are those of the long and the short block |
| `Crc32cSse42.Sse42.Hash` | src/hash/hash_crc32c_sse42.c:66-151 | the three-lane form computes CRC-32C for every input, length, seed and alignment |
| `Crc32cSw.BuildTables` | src/hash/hash_crc32c_sw.c:52-75 | the eight tables hold the effect of a byte followed by zero to seven zero bytes |
| `Crc32cSw.EightSlicesFeed` | src/hash/hash_crc32c_sw.c:90-98 | eight look-ups feed eight bytes |
| `Crc32cSw.Sw.Hash` | src/hash/hash_crc32c_sw.c:77-107 | the slicing-by-8 form computes CRC-32C for every input, length, seed and alignment |
| `Glob.ScanClass` | src/utils_string.c:170-211 | the scan of a class stops at its end, at the end of the pattern, or loops forever exactly as its grammar says, and tells whether the character is in it |
| `Glob.TryToken` | src/utils_string.c:140-249 | one turn of the switch passes a token exactly when the token accepts the character, and runs past the pattern exactly when the byte after it passes |
| `Glob.GlobMatch` | src/utils_string.c:122-267 | for every pattern, text and byte after the pattern, backtracking to the last star only gives the answer of the declarative matcher, unless an endless class or the end of the pattern can be reached; then it does not return or runs past the pattern |
| `Glob.AgreesExactly` | src/utils_string.c:131-137 | the call agrees with the declarative matcher if and only if it returns within the pattern, the text is not empty with a pattern of stars, and the pattern is not a single `?` on a longer text |
| `Glob.OneVerdict` | src/utils_string.c:122-267 | pattern, text and the byte after the pattern determine the outcome: no call can both hang and run past the pattern |
| `Glob.ReturnsExactly` | src/utils_string.c:170-177 | no text makes a call with the pattern fail to return, if and only if no endless class comes after tokens that can all be passed |
| `Glob.NoEndlessClass` | src/utils_string.c:172-177 | a pattern without a dash right after the opening of a class or after the character -1 makes no call fail to return |
| `Glob.LeadingDashHangs` | src/utils_string.c:174-177 | a pattern that begins with a class that begins with a dash returns on no text |
| `Glob.StaysInPatternExactly` | src/utils_string.c:139-141 | no pattern runs past its end, if and only if the text is empty or the byte after the pattern is an opening bracket, or it is none of the other special characters and not in the text |
| `GlobLaws.PlainLaw` | src/utils_string.c:231-242 | plain text matches itself only |
| `GlobLaws.PrefixLaw` | src/utils_string.c:141-146 | plain text and a star match the texts that begin with it |
| `GlobLaws.SuffixLaw` | src/utils_string.c:141-146 | a star and plain text match the texts that end with it |
| `GlobLaws.ContainsLaw` | src/utils_string.c:244-252 | plain text between stars matches the texts that contain it |
| `GlobLaws.QuestionLaw` | src/utils_string.c:148-153 | two or more question marks match the texts of that length; a single one matches every text |
| `GlobLaws.EscapeLaw` | src/utils_string.c:224-242 | a backslash takes any next character for itself |
| `GlobLaws.ClassLaw` | src/utils_string.c:155-222 | a class of plain characters accepts exactly those |
| `GlobLaws.NegatedLaw` | src/utils_string.c:163-167 | a caret turns the class round |
| `GlobLaws.RangeLaw` | src/utils_string.c:174-190 | a range accepts its two ends and what lies between them |
| `GlobLaws.ClassEscapeLaw` | src/utils_string.c:192-197 | a backslash in a class takes any next character for itself |
| `GlobLaws.UnclosedLaw` | src/utils_string.c:207-209 | a class without its closing bracket matches nothing |
| `GlobLaws.TrailingLaw` | src/utils_string.c:156-158 | a pattern that is a lone backslash or opening bracket matches nothing |
| `ShardWord.FindFirstZero` | src/data_structures/slots_bitmap_mpmc/slots_bitmap_mpmc.h:88-109 | four table look-ups find the lowest zero bit, or 255 exactly when there is none |
| `ShardWord.ValueInjective` | src/data_structures/slots_bitmap_mpmc/slots_bitmap_mpmc.c:151-157 | comparing two words as numbers compares their bits |
| `ShardWord.ValueWithout` | src/data_structures/slots_bitmap_mpmc/slots_bitmap_mpmc.c:252 | subtracting the power of a set bit clears that bit only |
| `ShardWord.ValueWith` | src/data_structures/slots_bitmap_spsc/slots_bitmap_spsc.c:179 | setting a zero bit adds its power and changes no other bit |
| `SlotsBitmapMpmc.KeepsExactly` | src/data_structures/slots_bitmap_mpmc/slots_bitmap_mpmc.c:106-263 | a step keeps one owner per set bit and the counters if and only if it is neither a swap whose two reads disagreed nor the release of a slot whose shard number exceeds 16 bits |
| `SlotsBitmapMpmc.RunsExactly` | src/data_structures/slots_bitmap_mpmc/slots_bitmap_mpmc.c:106-263 | a run is sound in all its states if and only if it has no such step |
| `SlotsBitmapCalls.AcquireAlone` | src/data_structures/slots_bitmap_mpmc/slots_bitmap_mpmc.c:106-178 | from every state, an acquire with a positive step that nobody disturbs takes the lowest zero bit of the first visited shard that it does not pass by, and fails, changing nothing, if and only if it passes by all of them |
| `SlotsBitmapCalls.AcquireLowest` | src/data_structures/slots_bitmap_mpmc/slots_bitmap_mpmc.c:106-178 | from every sound state without a release between clearing and counting, that is the first visited shard with a zero bit, and failure means that every visited shard is full |
| `SlotsBitmapCalls.PassedIsFull` | src/data_structures/slots_bitmap_mpmc/slots_bitmap_mpmc.c:131-146 | in a sound state a shard is passed by exactly when it is full, unless a release has cleared a bit of it and not counted it yet |
| `SlotsBitmapCalls.StaleCounter` | src/data_structures/slots_bitmap_mpmc/slots_bitmap_mpmc.c:131-134 | a release that has cleared a bit of a full shard and not counted it leaves a shard that is passed by though it has a free slot |
| `SlotsBitmapCalls.StepZeroNeverEnds` | src/data_structures/slots_bitmap_mpmc/slots_bitmap_mpmc.c:124-134 | with a step of 0 an acquire that passes by its one shard never ends |
| `SlotsBitmapCalls.FailureSawAll` | src/data_structures/slots_bitmap_mpmc/slots_bitmap_mpmc.c:116-178 | in every interleaving, an acquire that fails has passed by every one of its shards at some moment since it was called |
| `SlotsBitmapCalls.ReleaseAlone` | src/data_structures/slots_bitmap_mpmc/slots_bitmap_mpmc.c:222-263 | from every sound state, a release that nobody disturbs clears the bit, counts it off and changes nothing else |
| `SlotsBitmapMpmc.OneOwner` | src/data_structures/slots_bitmap_mpmc/slots_bitmap_mpmc.c:136-172 | in a sound state no slot has two owners, and an owned slot has its bit set |
| `SlotsBitmapMpmc.AtRest` | src/data_structures/slots_bitmap_mpmc/slots_bitmap_mpmc.c:166-167 | when no call is under way, set bits are owned slots and the counters count them |
| `SlotsBitmapMpmc.ReleaseFindsBit` | src/data_structures/slots_bitmap_mpmc/slots_bitmap_mpmc.c:236-249 | a release of an owned slot never finds its bit clear |
| `SlotsBitmapMpmc.StaleReadFreesOwnedSlot` | src/data_structures/slots_bitmap_mpmc/slots_bitmap_mpmc.c:137-157 | a second read that misses a bit clears it under its owner |
| `SlotsBitmapRace.TwoOwners` | src/data_structures/slots_bitmap_mpmc/slots_bitmap_mpmc.c:137-157 | a run of two threads on an empty bitmap in which one slot is handed out twice |
| `SlotsBitmapSpsc.NewBitmap` | src/data_structures/slots_bitmap_spsc/slots_bitmap_spsc.c:40-70 | no bitmap for size 0; otherwise as many shards as the size needs and no more, all free |
| `SlotsBitmapSpsc.Bitmap.constructor` | src/data_structures/slots_bitmap_spsc/slots_bitmap_spsc.c:46-67 | as many shards as the size needs, all free |
| `SlotsBitmapSpsc.Bitmap.IsShardFull` | src/data_structures/slots_bitmap_spsc/slots_bitmap_spsc.c:130-140 | the full bit is set exactly when all 64 slots are used |
| `SlotsBitmapSpsc.Bitmap.Acquire` | src/data_structures/slots_bitmap_spsc/slots_bitmap_spsc.c:158-193 | the lowest free slot of the bitmap is taken; failure means that every slot is held |
| `SlotsBitmapSpsc.Bitmap.Release` | src/data_structures/slots_bitmap_spsc/slots_bitmap_spsc.c:206-220 | for every slot of the bitmap, the slot becomes free, no other changes and counters and full bits stay exact, if and only if the slot is held and its shard number fits 16 bits |
| `Pow2Round.NextPow2M1` | src/pow2.h:9-19 | six shifts set exactly the bits up to the highest set bit |
| `Pow2Round.Next` | src/pow2.h:21-24 | the least power of two not below the argument, from 1 to half the range; 0 for every other argument |
| `Pow2Round.MaskIsMod` | src/data_structures/ring_bounded_queue_spsc/ring_bounded_queue_spsc_generic.h:116 | masking with one less than a power of two is the remainder |
| `RingSpsc.RingSize` | src/data_structures/ring_bounded_queue_spsc/ring_bounded_queue_spsc_generic.h:50-54 | the size is the least power of two not below the requested one, or 0 exactly when that does not fit 32 bits |
| `RingSpsc.Ring.constructor` | src/data_structures/ring_bounded_queue_spsc/ring_bounded_queue_spsc_generic.h:50-70 | an empty ring of that size |
| `RingSpsc.Ring.Length` | src/data_structures/ring_bounded_queue_spsc/ring_bounded_queue_spsc_generic.h:77-80 | the difference of the wrapped indices is the number of values |
| `RingSpsc.Ring.Peek` | src/data_structures/ring_bounded_queue_spsc/ring_bounded_queue_spsc_generic.h:92-117 | the oldest value, if there is one |
| `RingSpsc.Ring.Enqueue` | src/data_structures/ring_bounded_queue_spsc/ring_bounded_queue_spsc_generic.h:119-140 | a value is appended exactly when the ring is not full |
| `RingSpsc.Ring.Dequeue` | src/data_structures/ring_bounded_queue_spsc/ring_bounded_queue_spsc_generic.h:168-205 | the oldest value is taken, if there is one |
| `RingSpsc.CallsAreFifo` | src/data_structures/ring_bounded_queue_spsc/ring_bounded_queue_spsc_generic.h:119-205 | with a producer and a consumer stepping independently, what the dequeues returned is always a prefix of the arguments of the accepted enqueues, one value per accepted dequeue, at most the size behind, across wrap of the indices |
| `RingSpsc.EnqueueRefused` | src/data_structures/ring_bounded_queue_spsc/ring_bounded_queue_spsc_generic.h:119-129 | an enqueue is refused, changing nothing, if and only if the ring is full; otherwise it takes its argument |
| `RingSpsc.DequeueRefused` | src/data_structures/ring_bounded_queue_spsc/ring_bounded_queue_spsc_generic.h:168-180 | a dequeue is refused, changing nothing, if and only if the ring is empty |
| `RingSpsc.NoOverwrite` | src/data_structures/ring_bounded_queue_spsc/ring_bounded_queue_spsc_generic.h:131 | a write touches no slot that holds an unread value |
| `RingSpsc.NeverStuck` | src/data_structures/ring_bounded_queue_spsc/ring_bounded_queue_spsc_generic.h:119-205 | each side can make a call when it is in none, and every index used is inside the buffer, so a call once begun can go on |
| `LinkedList.LinkBefore` | src/data_structures/double_linked_list/double_linked_list.h:77-89 | the pointer writes of an insertion make all links those of the longer sequence |
| `LinkedList.LinkAfter` | src/data_structures/double_linked_list/double_linked_list.h:110-122 | the same, after an item |
| `LinkedList.Unlink` | src/data_structures/double_linked_list/double_linked_list.h:147-153 | the pointer writes of a removal make all links those of the shorter sequence |
| `LinkedList.LinkFirst` | src/data_structures/double_linked_list/double_linked_list.h:216-239 | the pointer writes of a move to the front, also of an item next to the head or at the tail |
| `LinkedList.LinkLast` | src/data_structures/double_linked_list/double_linked_list.h:257-280 | the pointer writes of a move to the back, also of an item next to the tail or at the head |
| `LinkedList.List.InsertBefore` | src/data_structures/double_linked_list/double_linked_list.h:69-100 | the item is inserted into the sequence before another one; head, tail and count follow |
| `LinkedList.List.InsertAfter` | src/data_structures/double_linked_list/double_linked_list.h:102-132 | the item is inserted into the sequence after another one |
| `LinkedList.List.Push` | src/data_structures/double_linked_list/double_linked_list.h:134-139 | the item is appended |
| `LinkedList.List.Unshift` | src/data_structures/double_linked_list/double_linked_list.h:181-186 | the item is prepended |
| `LinkedList.List.Remove` | src/data_structures/double_linked_list/double_linked_list.h:141-166 | the item leaves the sequence and keeps no links |
| `LinkedList.List.Pop` | src/data_structures/double_linked_list/double_linked_list.h:168-179 | the last item is taken, if there is one |
| `LinkedList.List.Shift` | src/data_structures/double_linked_list/double_linked_list.h:188-199 | the first item is taken, if there is one |
| `LinkedList.List.MoveToHead` | src/data_structures/double_linked_list/double_linked_list.h:201-240 | the item moves to the front and the others keep their order |
| `LinkedList.List.MoveToTail` | src/data_structures/double_linked_list/double_linked_list.h:242-281 | the item moves to the back and the others keep their order |
| `LinkedList.List.Forward` | src/data_structures/double_linked_list/double_linked_list.h:41-53 | following the next pointers visits the sequence |
| `LinkedList.List.Backward` | src/data_structures/double_linked_list/double_linked_list.h:55-67 | following the previous pointers visits its reverse |

## Left out

- Network, TLS, io_uring, storage, modules, configuration, logging and startup: plumbing over libraries that are not part of this model.
- The hashtables, the storage database and the Redis protocol reader and writer are not part of this model.
- Weak memory: every atomic or fenced access is one sequentially consistent step.
- Allocation failure and the freeing of memory: an object that is given up simply stays unused; in the paged container the spare page of a push is not freed.
- Radix tree keys are shorter than 2^31 bytes, since lengths pass through `int`; values are optional rather than null pointers, so a stored null is not confused with a missing key; the portable branches of the 16-child layout are modelled (lines 203-215 and 490-498), whose order is unsigned.
- Radix tree children are sequences that the node's field is set to; the order of the byte moves inside one array is not modelled.
- The largest key of the radix tree (lines 374-413) and the destruction of a tree: easier than what is modelled.
- ArtRelated.PrefixFound: leaves open what happens when several stored keys go on after the new one, some with 0 and some not, and the byte after it is 0, since the insertion then reads on past the key.
- The versions of the paged container's head are unbounded, which is what 16 bits mean while fewer than 65536 swaps succeed during one attempt; the length is unbounded; a page's previous link is read once where the source reads it twice, since a published page never changes it; pushed values are not 0, the mark of an empty slot.
- Transactions: the two bytes beside a lock word that its swap carries along are not part of it; assertions are off, so that a reader can wrap the count (with them on it stops the program); a waiting call can fail at any time, where the source counts its spins; listing a lock can fail, with the unlocking that follows, but the list of `TransactionLists` always grows.
- The `crc32b` and `crc32q` instructions mean one and eight byte steps; loads are little-endian.
- Glob.GlobMatch: a run that goes on past the pattern is reported and not followed, since its length then wraps and it reads memory that is not the caller's.
- The slot bitmap's iterator over set bits and the shard count by floating-point division (an integer division here, equal below 2^53): easier than what is modelled.
- The first-free-bit tables are specified as the lowest zero of sixteen bits; their 65536 entries are not part of this model.
- The ring's variant that returns a pointer to the slot differs from enqueueing only in its result.
