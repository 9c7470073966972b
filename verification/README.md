# Verified models of plibsys

Dafny models of the algorithms in plibsys that are more than a wrapper around a system call, with proofs of what
they promise. The models keep the form of the C code: nodes, contexts, locks and buffers are objects whose methods
write their fields in place, loops are loops, and each method is proved against a specification on values.

**Trees** (`ptree-rb.c`, `ptree-avl.c`, `ptree-bst.c`, `ptree.c`). Nodes are heap objects. A `Cell` is the root
pointer together with a ghost tree value and a ghost record of all node fields; `Wired` says that the pointers,
parent pointers, colours and balance factors spell out exactly that tree. Positions in a tree are a subtree and a
one-hole context (`Plug(t, c)`). The red-black and AVL invariants, and the one defect that a balancing climb
carries upwards, are predicates on values (`RedFocus`, `ShortFocus`, `GrownFocus`, `ShrunkFocus`); the climbs
write pointers and restore the invariants. The removal climbs of the C code run while the doomed leaf is still
linked, so they are stated with two subtrees: the one in memory and the one that the balance already counts with.
A tree of any of the three types then answers every sequence of operations as a finite map does, and the books on what
is handed to the destroy functions are kept over the whole run. `p_tree_foreach` (a Morris traversal) and `p_tree_clear` (its destructive cousin) are proved on the threaded, temporarily cyclic
memory.

**Locks** (`prwlock-general.c`, `prwlock-win.c`, `pcondvariable-win.c`). Each protocol is a step relation over any
number of threads below 2 to the 15, with the packed words as 32-bit vectors, and theorems about every state of
every run. The functions of the source are methods of a class whose contracts are the steps.

**Hashes** (`pcryptohash*.c`). FIPS 180-4 is written down as functions, with its constants traced back to roots of prime
numbers and its padding and byte order to numbers in base 256; the compression functions of SHA-512, SHA-256 and SHA-1,
with their rotated register names and rolling schedules, compute them. For SHA-512 and SHA-384
the whole life cycle of a handle is proved: whatever the sequence of calls, a digest that is returned is the
one-shot digest of the right message. For GOST R 34.11-94 the closed-form output mixing is proved equal to 12, 1
and 61 steps of the shift register of RFC 5831, the key generation, which never moves a word, equal to that of the
RFC, and a streamed message hashes to its one-shot digest; the carry loop of the 256-bit sum is characterised exactly,
and with it the messages whose checksum is that of the RFC.

**Ring buffer** (`pshmbuffer.c`). Exactly when a run of the ring is a run of a byte queue.

Where the code does not do what one would expect it is kept as it is, with the exact condition:

- `p_tree_remove` hands the removed pair to the destroy functions if and only if its node lacks a child. Otherwise it
  hands over the pair before it, which the tree still holds (`TreeWalk.DestroyedPair`, and over runs `PTree.Replay`;
  `PTree.DestroyTheWrongPair` is an example in all three tree types).
- A run of the ring differs from a queue exactly when a write takes the last slot of a wrapped ring, the free space of a
  wrapped ring is asked for, or a read takes 2 to the 31 bytes or more (`ShmBuffer.Replay`; `ShmBuffer.LoseToTheBrim` and
  `ShmBuffer.ReadTooMany` are examples).
- The carry of the 256-bit sum is lost when both limbs are all ones and a carry comes in (`GostSum.AddsModuloIff`;
  `GostSum.LosesACarry` is an example). The lengths fed to it never meet that case, but message blocks may
  (`GostContext.ChecksumIff`; `GostContext.ChecksumGoesWrong` is an example).
- A wait that fails in the general read-write lock may take a wake-up with it. Which failed waits do is `Swallows`, and
  some state of a run can come to a stuck lock without a further failed wait if and only if one of them did
  (`RWLock.LostOnlyIfSwallowed`; `RWLock.FailedWaitLosesWakeup` is an example).
- A permit of the emulated condition variable may go to a thread that came after it. This cannot happen in a run if and
  only if no thread starts to wait while there is a permit left (`CondVariableXP.OvertakingIff`;
  `CondVariableXP.LateWaiterOvertakes` is an example).

## Model

| member | source | states |
|---|---|---|
| PTree.Replay | plibsys/src/ptree.c:69-301 | For every tree type and every sequence of insert, remove, lookup, foreach, count and clear, the answers are those of a finite map, so the three back ends agree; every pair put in is destroyed once or still held if and only if no removal met a node with two children |
| PTree.LookupAnswers | plibsys/src/ptree.c:116-183 | In every run a lookup answers the value last put in under a key that compares equal, and null if that key was removed or the tree cleared since, or if none was put in |
| PTree.DestroyTheWrongPair | plibsys/src/ptree.c:138-157 | In every tree type: ranks 2, 1 and 3 are inserted and 2 is removed; the destroy functions get the pair of rank 1, which a lookup still finds |
| PTree.Perform | plibsys/src/ptree.c:116-301 | One operation on a valid tree is one operation on its map, answer, traversal and replaced or cleared pairs included; what goes into the tree and what is destroyed balance, unless a node with two children was removed |
| PTree.PerformNext | plibsys/src/ptree.c:116-301 | One more operation of a run keeps the answers, the trees passed and the books |
| Books.KeptIff | plibsys/src/ptree.c:116-282 | What was put in is what was destroyed and is still held exactly while no removal went wrong: afterwards the sum of the ranks has dropped for good |
| PTree.Handle.constructor | plibsys/src/ptree.c:69-114 | A new tree is valid and stands for the empty map |
| PTree.Handle.Insert | plibsys/src/ptree.c:116-136 | The map gains or replaces the entry, the replaced pair goes to the destroy functions; the count stays the size of the map |
| PTree.Handle.Remove | plibsys/src/ptree.c:138-157 | The map loses the key, the answer says whether it was there, the count stays the size of the map; the destroy functions get the removed pair if and only if its node lacks a child, otherwise the pair before it, which the map still holds |
| PTree.Handle.Lookup | plibsys/src/ptree.c:159-183 | The value of the entry whose key compares equal, whatever key object is asked with, or null if there is none; calls of the compare function are at most the height, and so logarithmic for red-black (2 to the calls is at most (n + 1) squared) and AVL trees (Fibonacci of calls + 2 is at most n + 1) |
| PTree.Handle.Foreach | plibsys/src/ptree.c:185-240 | For every callback, which may decide by all it was called with: it is called in ascending key order on the shortest prefix ending in a stop, or on everything; every field of every node is as before |
| PTree.Handle.Clear | plibsys/src/ptree.c:242-282 | Every entry of the map goes to the destroy functions once, in ascending order; root null, count 0, nothing left allocated |
| PTree.Handle.Count | plibsys/src/ptree.c:293-301 | The stored count is the size of the map |
| PTree.InsertNode | plibsys/src/ptree.c:116-136 | The back end's answer says whether the key is new, which is by how much the map grows; a replaced pair is destroyed |
| PTree.RemoveNode | plibsys/src/ptree.c:138-157 | The back end's answer says whether the key was there, which is by how much the map shrinks; the destroyed pair is as for the back ends |
| PTree.Search | plibsys/src/ptree.c:159-183 | The lookup loop finds the value of the entry whose key compares equal, or null, in at most as many comparisons as the tree is high |
| PTree.LookupBound | plibsys/src/ptree.c:159-183 | Any path of a sorted balanced tree is logarithmic in the size of the map it stands for |
| Heights.RedBlackHeight | plibsys/src/ptree-rb.c:138-330 | A red-black tree of n nodes has height at most 2 log2(n + 1) |
| Heights.AvlSize | plibsys/src/ptree-avl.c:178-328 | An AVL tree of height h has at least Fib(h + 2) - 1 nodes |
| Entries.SortedUnique | plibsys/src/ptree.c:185-240 | A map has only one ascending sequence of entries, so the traversal order is determined |
| RedBlack.TurnLeft | plibsys/src/ptree-rb.c:84-109 | The pointer writes of the left rotation are those of `LeftTurn` and no others |
| RedBlack.TurnRight | plibsys/src/ptree-rb.c:111-136 | The pointer writes of the right rotation are those of `RightTurn` and no others |
| TreeMemory.LeftTurnRotates | plibsys/src/ptree-rb.c:84-109 | Those writes turn memory that forms a tree into memory that forms the rotated tree, parent pointers included |
| TreeMemory.RightTurnRotates | plibsys/src/ptree-rb.c:111-136 | The same for the right rotation |
| RedBlack.RotateLeft | plibsys/src/ptree-rb.c:84-109 | The subtree is rotated in its place and the entries keep their order |
| RedBlack.RotateRight | plibsys/src/ptree-rb.c:111-136 | The subtree is rotated in its place and the entries keep their order |
| RedBlackShape.InsertStops | plibsys/src/ptree-rb.c:145-153 | Cases 1 and 2: at the root or under a black parent the defect is gone |
| RedBlackShape.FlipKeepsFocus | plibsys/src/ptree-rb.c:166-174 | Case 3: recolouring moves the only defect up two levels and keeps the entries |
| RedBlackShape.InnerRotationKeepsFocus | plibsys/src/ptree-rb.c:177-211 | Case 4: an inner grandchild becomes an outer one, with the defect at its old parent |
| RedBlackShape.OuterRotationRestores | plibsys/src/ptree-rb.c:191-217 | Case 5: recolouring and a rotation give a red-black tree |
| RedBlackShape.RedBlackPlug | plibsys/src/ptree-rb.c:138-330 | A whole tree is red-black if and only if the subtree is balanced and its surroundings fit its black height |
| RedBlack.FlipColors | plibsys/src/ptree-rb.c:166-174 | The three writes of case 3 give the recoloured tree |
| RedBlack.RotateUpRight | plibsys/src/ptree-rb.c:176-204 | Cases 4 and 5 under a left parent end in a red-black tree with the same entries |
| RedBlack.RotateUpLeft | plibsys/src/ptree-rb.c:205-220 | Cases 4 and 5 under a right parent end in a red-black tree with the same entries |
| RedBlack.BalanceInsert | plibsys/src/ptree-rb.c:138-222 | The climb terminates, never follows a null grandparent, and restores the red-black tree with the same nodes and entries |
| RedBlack.AddLeaf | plibsys/src/ptree-rb.c:376-388 | A red leaf in the empty slot of a new key, rebalanced: valid tree, map with the new entry |
| RedBlack.Insert | plibsys/src/ptree-rb.c:332-389 | From any valid tree: valid tree, map with the entry added or replaced, answer true exactly for a new key; a replaced pair, and nothing else, goes to the destroy functions |
| RedBlackShape.SiblingExists | plibsys/src/ptree-rb.c:234-236 | Equal black counts force a sibling to exist below any parent |
| RedBlackShape.RedSiblingKeeps | plibsys/src/ptree-rb.c:246-254 | Case 2: the missing black node stays at the focus, the new sibling exists and is black |
| RedBlackShape.SiblingFlip | plibsys/src/ptree-rb.c:266-277 | Case 3: under a red parent the tree is repaired, under a black one the defect moves up |
| RedBlackShape.NearKeeps | plibsys/src/ptree-rb.c:290-306 | Case 4: afterwards the far nephew is red and nothing else changed |
| RedBlackShape.FarRestores | plibsys/src/ptree-rb.c:317-326 | Case 5: the rotation makes up the missing black node |
| RedBlack.LiftRedSibling | plibsys/src/ptree-rb.c:246-254 | The writes of case 2 give its tree |
| RedBlack.BlackSibling | plibsys/src/ptree-rb.c:234-255 | After case 2, if it applied, the sibling exists and is black |
| RedBlack.RepaintSibling | plibsys/src/ptree-rb.c:266-277 | The writes of case 3, and whether the climb goes on |
| RedBlack.LiftNear | plibsys/src/ptree-rb.c:290-306 | The writes of case 4 give its tree |
| RedBlack.LiftFar | plibsys/src/ptree-rb.c:317-326 | The writes of case 5 give its tree |
| RedBlack.FinishRemoval | plibsys/src/ptree-rb.c:290-328 | Cases 4 and 5 end in a red-black tree with the same entries around the doomed node |
| RedBlack.RemoveTurn | plibsys/src/ptree-rb.c:224-330 | One turn of the climb: repaired, or the defect is one level up |
| RedBlack.BalanceRemove | plibsys/src/ptree-rb.c:224-330 | The climb terminates and never follows a null sibling; without the doomed leaf the tree will be red-black |
| RedBlackShape.RemovedNode | plibsys/src/ptree-rb.c:434-467 | What a node with at most one child leaves behind: a red-black tree, one to repair, or a child to paint black |
| RedBlackShape.AlikeRedBlack | plibsys/src/ptree-rb.c:421-432 | Copying the predecessor's pair cannot disturb the balance |
| RedBlack.RemoveNode | plibsys/src/ptree-rb.c:434-467 | The node goes, the tree is red-black, the other entries stay in order |
| RedBlack.Remove | plibsys/src/ptree-rb.c:391-470 | From any valid tree and for any key: search tree with black root, no red-red edge, equal black counts and consistent parent pointers; the map loses the key; the answer says whether it was there; the destroy functions get the removed pair if and only if its node lacks a child, otherwise the pair before it, which stays in the map |
| TreeWalk.FindSlot | plibsys/src/ptree-rb.c:345-360 | The descent ends at the key's node or at the empty slot where it belongs, with the parent |
| TreeWalk.FindNode | plibsys/src/ptree-rb.c:405-416 | The descent ends at the key's node, or at null where the key would be |
| TreeWalk.Predecessor | plibsys/src/ptree-rb.c:421-432 | The right end of the left subtree, whose entry is the last one before the node's |
| TreeWalk.Victim | plibsys/src/ptree-rb.c:421-432 | A node with two children takes its predecessor's entry; the node to go has at most one child and holds its own pair or the predecessor's, and the rest is the tree without the key |
| TreeWalk.DestroyedPair | plibsys/src/ptree-rb.c:421-465 | The pair in the node that is freed is the removed one if and only if the key's node lacks a child; otherwise it is the last one with a smaller key, and it is still in the tree |
| TreeWalk.Bypass | plibsys/src/ptree-rb.c:439-453 | The writes that unlink a node, the child's parent pointer included |
| TreeMemory.NodeBypassed | plibsys/src/ptree-rb.c:439-453 | Those writes leave memory that forms the tree with the node replaced by its only child |
| AvlShape.AvlPlug | plibsys/src/ptree-avl.c:178-328 | A whole tree is AVL if and only if the subtree is and its surroundings fit its height |
| AvlShape.LeftRotationRestores | plibsys/src/ptree-avl.c:34-176 | On a side two levels too high the right one of the left and right-left rotations gives an AVL tree with correct balance factors, as high as before or one lower |
| AvlShape.RightRotationRestores | plibsys/src/ptree-avl.c:59-129 | The same for the right and left-right rotations |
| AvlShape.RotationEntries | plibsys/src/ptree-avl.c:34-176 | All four rotations keep the entries in order |
| AvlTree.RotateLeft | plibsys/src/ptree-avl.c:34-57 | The pointer writes and the two balance factors of the left rotation |
| AvlTree.RotateRight | plibsys/src/ptree-avl.c:59-82 | The pointer writes and the two balance factors of the right rotation |
| AvlTree.DoubleRightIsTwoTurns | plibsys/src/ptree-avl.c:84-129 | The pointer writes of the left-right rotation are those of a left turn followed by a right turn |
| AvlTree.DoubleRightRotates | plibsys/src/ptree-avl.c:84-129 | Memory that forms a tree then forms the tree rotated twice |
| AvlTree.DoubleLeftRotates | plibsys/src/ptree-avl.c:131-176 | The same for the right-left rotation |
| AvlTree.RotateLeftRight | plibsys/src/ptree-avl.c:84-129 | The double rotation with its three balance factors |
| AvlTree.RotateRightLeft | plibsys/src/ptree-avl.c:131-176 | The double rotation with its three balance factors |
| AvlShape.GrowthAbsorbed | plibsys/src/ptree-avl.c:178-263 | A parent that did not lean towards the growth: the climb ends, or goes on with the parent grown |
| AvlShape.GrowthRotated | plibsys/src/ptree-avl.c:178-263 | A parent that leaned towards the growth: the rotation gives an AVL tree |
| AvlTree.RotateGrown | plibsys/src/ptree-avl.c:188-244 | Cases 1 and 2: the rotation that the node's own balance asks for ends in an AVL tree with the same entries |
| AvlTree.AbsorbGrown | plibsys/src/ptree-avl.c:211-258 | Cases 3 and 4: the reweighing of the parent and whether the climb goes on |
| AvlTree.InsertTurn | plibsys/src/ptree-avl.c:178-263 | One turn of the climb: repaired, or the growth is one level up |
| AvlTree.BalanceInsert | plibsys/src/ptree-avl.c:178-263 | The climb terminates and restores the AVL tree with the same nodes and entries |
| AvlTree.Insert | plibsys/src/ptree-avl.c:330-387 | From any valid tree: every balance factor is left height minus right height and in -1 to 1, order and parent links hold, the map gains or replaces the entry; a replaced pair, and nothing else, goes to the destroy functions |
| AvlShape.ShrinkageAbsorbed | plibsys/src/ptree-avl.c:265-328 | A parent that did not lean away from the loss: the climb ends, or goes on with the parent shrunk |
| AvlShape.ShrinkageRotated | plibsys/src/ptree-avl.c:265-328 | A parent that leaned away: the sibling exists, and the rotation ends the climb exactly when the sibling was level |
| AvlTree.RotateShrunk | plibsys/src/ptree-avl.c:265-328 | The rotation of the removal climb and the sibling balance that decides the early exit |
| AvlTree.AbsorbShrunk | plibsys/src/ptree-avl.c:265-328 | The reweighing of the parent and whether the climb goes on |
| AvlTree.RemoveTurn | plibsys/src/ptree-avl.c:265-328 | One turn of the climb: repaired, or the loss is one level up |
| AvlTree.BalanceRemove | plibsys/src/ptree-avl.c:265-328 | The climb terminates; without the doomed leaf, or with the child in its place, the tree is AVL |
| AvlShape.AlikeAvl | plibsys/src/ptree-avl.c:419-430 | Copying the predecessor's pair cannot disturb the balance |
| AvlTree.RemoveNode | plibsys/src/ptree-avl.c:432-467 | The node goes, the tree is AVL, the other entries stay in order |
| AvlTree.Remove | plibsys/src/ptree-avl.c:389-467 | From any valid tree and for any key: AVL search tree with consistent links, the map loses the key, the answer says whether it was there; the destroy functions get the removed pair if and only if its node lacks a child, otherwise the pair before it, which stays in the map |
| Bst.Insert | plibsys/src/ptree-bst.c:21-66 | Search tree, map with the entry added or replaced, answer true exactly for a new key; a replaced pair, and nothing else, goes to the destroy functions |
| Bst.Splice | plibsys/src/ptree-bst.c:115-116 | The cursor write replaces the node by its only child |
| Bst.Remove | plibsys/src/ptree-bst.c:68-126 | Search tree, the map loses the key, the answer says whether it was there; the destroy functions get the removed pair if and only if its node lacks a child, otherwise the pair before it, which stays in the map |
| Morris.GoLeft | plibsys/src/ptree.c:219-223 | Threading the predecessor and going left keeps the threaded shape, with one more thread |
| Morris.ComeBack | plibsys/src/ptree.c:224-233 | A set thread leads to its own ancestor; removing it restores the finished left subtree |
| Morris.WireDetermines | plibsys/src/ptree.c:185-240 | A tree fixes the fields of its nodes, so a restored tree is restored field by field |
| Morris.ForeachTurn | plibsys/src/ptree.c:205-238 | One turn keeps `mod_counter` equal to the number of live threads and the callback told exactly the entries passed until it stops, and makes progress |
| Morris.Ended | plibsys/src/ptree.c:205-240 | At the end of the loop, or at the early return with no live thread, memory is as at the start and the callback has been told the shortest stopping prefix |
| Morris.Foreach | plibsys/src/ptree.c:185-240 | The traversal terminates, leaves memory as it was and tells the callback the shortest stopping prefix in order, for every shape and callback |
| Dismantle.TurnedShape | plibsys/src/ptree.c:268-278 | Moving the top to the right end of its left subtree keeps the entries and nodes and lengthens the right spine |
| Dismantle.TurnedLinks | plibsys/src/ptree.c:268-278 | The two writes of such a turn give the links of that tree |
| Dismantle.ClearTurn | plibsys/src/ptree.c:254-279 | One turn destroys and frees the first node or moves the top; the entries gone and the entries left make up the tree |
| Dismantle.TearDown | plibsys/src/ptree.c:242-282 | The loop terminates, frees every node once, touches none that was freed, passes every entry on in order and counts them all |
| PackedWord.SetLowGets | plibsys/src/prwlock-general.c:25-26 | Setting the low field reads back and leaves the other bits alone |
| PackedWord.SetHighGets | plibsys/src/prwlock-general.c:27-28 | Setting the high field reads back |
| PackedWord.SetHighKeeps | plibsys/src/prwlock-general.c:27-28 | Setting the high field leaves the other bits alone |
| PackedWord.NextNumber | plibsys/src/prwlock-general.c:69-289 | Adding one to a word adds one to the number it denotes, short of wrap-around |
| PackedWord.ZeroWord | plibsys/src/prwlock-general.c:183-224 | The test of the whole word against 0 means that both counts are 0 |
| PackedWord.LowRaised | plibsys/src/prwlock-general.c:69-111 | Counting one more in the low field, below its limit, changes nothing else |
| PackedWord.LowLowered | plibsys/src/prwlock-general.c:142-181 | Counting one less in the low field changes nothing else |
| PackedWord.HighRaised | plibsys/src/prwlock-general.c:183-224 | Counting one more in the high field, below its limit, changes nothing else |
| PackedWord.HighLowered | plibsys/src/prwlock-general.c:183-224 | Counting one less in the high field changes nothing else |
| RWLock.StepSafe | plibsys/src/prwlock-general.c:69-289 | Every section under the mutex, failed waits and spurious wake-ups included, keeps exclusion and the true counts |
| RWLock.RunSafe | plibsys/src/prwlock-general.c:69-289 | In every state of every run the four packed fields are the true numbers of threads, with at most one writer and never with a reader |
| RWLock.MutualExclusion | plibsys/src/prwlock-general.c:69-289 | While a thread writes no other thread holds the lock |
| RWLock.StepDecides | plibsys/src/prwlock-general.c:69-289 | Told from what the threads are doing: a request is granted if and only if nobody is in its way, an unlock wakes sleepers, and no step moves another thread otherwise |
| RWLock.RunDecides | plibsys/src/prwlock-general.c:69-252 | In every run a lock, a trylock and a wait that ends well leave the caller holding if and only if no other thread writes and, for a writer, none reads; else it waits, or is as before |
| RWLock.WakesMeans | plibsys/src/prwlock-general.c:142-181 | What the packed fields tell an unlock to signal is what the threads need |
| RWLock.StepLively | plibsys/src/prwlock-general.c:69-289 | A step keeps the lock lively (a reader asleep without an active writer has a waiting writer, and an unheld lock with waiters has one awake) if and only if it is not a failed wait of the only awake thread with others waiting, or of the waiting writer that sleeping readers count on |
| RWLock.RunLively | plibsys/src/prwlock-general.c:69-289 | Every state of a run is lively if and only if no failed wait in it takes a wake-up with it |
| RWLock.LivelyIff | plibsys/src/prwlock-general.c:69-289 | A safe state is lively if and only if no way on without failed waits ends with nobody holding the lock, threads registered as waiting and all of them asleep |
| RWLock.LostOnlyIfSwallowed | plibsys/src/prwlock-general.c:69-289 | No state of a run can come to such a stuck lock without a further failed wait if and only if no failed wait so far took a wake-up with it |
| RWLock.NoLostWakeup | plibsys/src/prwlock-general.c:69-289 | In a run whose failed waits take no wake-up with them: when nobody holds the lock and some thread is registered as waiting, some waiting thread is awake and takes the lock as soon as it runs |
| RWLock.FailedWaitLosesWakeup | plibsys/src/prwlock-general.c:183-224 | A run in which a failed wait takes the only signal with it: nobody holds the lock and a registered reader sleeps on |
| RWLock.Lock.constructor | plibsys/src/prwlock-general.c:38-67 | A new lock is where every run starts |
| RWLock.Lock.ReaderLock | plibsys/src/prwlock-general.c:69-111 | The code from the mutex to the first wait or return is a lock step of a reader, granted if and only if there is no writer |
| RWLock.Lock.ReaderResume | plibsys/src/prwlock-general.c:88-106 | The code from the end of a wait is a resume step of a reader, successful or not; one that ended well is granted if and only if there is no writer |
| RWLock.Lock.ReaderTrylock | plibsys/src/prwlock-general.c:113-140 | The function is a trylock step of a reader and answers true if and only if there is no writer |
| RWLock.Lock.ReaderUnlock | plibsys/src/prwlock-general.c:142-181 | The function is an unlock step, with the signal that is due |
| RWLock.Lock.WriterLock | plibsys/src/prwlock-general.c:183-224 | The code from the mutex to the first wait or return is a lock step of a writer, granted if and only if there is no holder |
| RWLock.Lock.WriterResume | plibsys/src/prwlock-general.c:202-224 | The code from the end of a wait is a resume step of a writer, successful or not; one that ended well is granted if and only if there is no holder |
| RWLock.Lock.WriterTrylock | plibsys/src/prwlock-general.c:226-252 | The function is a trylock step of a writer and answers true if and only if there is no holder |
| RWLock.Lock.WriterUnlock | plibsys/src/prwlock-general.c:254-289 | The function is an unlock step, with the signal or broadcast that is due |
| RWLockXP.FreeFields | plibsys/src/prwlock-win.c:28-29 | The two tests of the word in terms of its fields |
| RWLockXP.TakenFields | plibsys/src/prwlock-win.c:30-33 | Entering changes the reader count by one or sets the writer bit, and nothing else |
| RWLockXP.DroppedFields | plibsys/src/prwlock-win.c:30-33 | Leaving changes the reader count by one or clears the writer bit, and nothing else |
| RWLockXP.WaitsFields | plibsys/src/prwlock-win.c:34-35 | Registering and deregistering change the waiting count by one, and nothing else |
| RWLockXP.NoEarlyExit | plibsys/src/prwlock-win.c:268-297 | A holder never finds the lock without its mark when it comes to release |
| RWLockXP.StepSafe | plibsys/src/prwlock-win.c:199-394 | Every atomic read and every compare-and-exchange of every thread, failed or not, keeps exclusion and the true counts |
| RWLockXP.RunSafe | plibsys/src/prwlock-win.c:199-394 | The same in every state of every interleaving |
| RWLockXP.MutualExclusion | plibsys/src/prwlock-win.c:199-394 | The reader field is the number of read holders, the waiting field the number of threads between registering and deregistering, the writer bit is set iff there is a write holder, and a write holder is alone |
| RWLockXP.AccessDecides | plibsys/src/prwlock-win.c:199-394 | Told from what the threads are doing: a read sends a request on to its exchange if and only if nobody is in its way and a leaving writer if and only if nobody is registered, an exchange succeeds if and only if the word is as it was read, and no access moves another thread |
| RWLockXP.RunDecides | plibsys/src/prwlock-win.c:199-394 | The same for every access in every interleaving |
| RWLockXP.ReleaseIsAnExchange | plibsys/src/prwlock-win.c:268-394 | A holder leaves only by an exchange that takes off its own mark; a writer's starts from a word with no waiting thread and leaves it clear |
| RWLockXP.OthersKeep | plibsys/src/prwlock-win.c:199-394 | Whatever the other threads do between two states of a run, a thread stays where it is and the invariant holds |
| RWLockXP.Lock.constructor | plibsys/src/prwlock-win.c:167-190 | A new lock is where every run starts, with no step taken |
| RWLockXP.Lock.AtomicGet | plibsys/src/prwlock-win.c:208 | An atomic read is a step of the protocol |
| RWLockXP.Lock.CompareAndExchange | plibsys/src/prwlock-win.c:213-218 | A compare-and-exchange is a step of the protocol |
| RWLockXP.Lock.EnlistAndWait | plibsys/src/prwlock-win.c:225-243 | Registering, waiting and deregistering continue the run of the lock and start the count of turns anew; it ends undone only after the given number of further accesses |
| RWLockXP.Lock.StartRead | plibsys/src/prwlock-win.c:199-247 | Amid any steps of other threads the function continues the run of the lock; when it returns the caller is a read holder, or it has made as many accesses as it was given |
| RWLockXP.Lock.StartWrite | plibsys/src/prwlock-win.c:299-347 | The same for a write holder |
| RWLockXP.Lock.StartReadTry | plibsys/src/prwlock-win.c:249-266 | The caller is a read holder if and only if the answer says so; it says no only if during the call there was a write holder, or others changed the word between its read and its exchange |
| RWLockXP.Lock.StartWriteTry | plibsys/src/prwlock-win.c:349-364 | The caller is a write holder if and only if the answer says so; it says no only if during the call there was a holder, or others changed the word between its read and its exchange |
| RWLockXP.Lock.EndRead | plibsys/src/prwlock-win.c:268-297 | The function continues the run of the lock; when it is done the caller holds nothing, and it gives up only after as many accesses as it was given |
| RWLockXP.Lock.EndWrite | plibsys/src/prwlock-win.c:366-394 | The function continues the run of the lock; when it is done the caller holds nothing, and it gives up only after as many accesses as it was given |
| CondVariableXP.StepConserves | plibsys/src/pcondvariable-win.c:152-200 | Every step keeps: waiters counted plus permits of the semaphore are the blocked threads |
| CondVariableXP.StepMoves | plibsys/src/pcondvariable-win.c:152-200 | In every run a step blocks its caller if it starts to wait, lets it run otherwise and moves nobody else; a permit goes to whoever returns |
| CondVariableXP.WakeupsConserved | plibsys/src/pcondvariable-win.c:152-200 | The same over every run, failed waits included; without them the count is never negative |
| CondVariableXP.SignalReleases | plibsys/src/pcondvariable-win.c:173-200 | In every run, failed waits included: a signal lets exactly one more blocked thread return, if any is without a permit; a broadcast gives all blocked threads one; nobody else moves |
| CondVariableXP.NoSpuriousReturn | plibsys/src/pcondvariable-win.c:152-184 | Without broadcasts there are never more returns than signals |
| CondVariableXP.LateWaiterOvertakes | plibsys/src/pcondvariable-win.c:152-184 | A run in which a permit goes to a thread that began to wait after the signal |
| CondVariableXP.OvertakingIff | plibsys/src/pcondvariable-win.c:152-200 | For every run, failed waits and broadcasts included: wherever a permit can be taken the taker has been waiting since one was given, if and only if nobody starts to wait while there is a permit left |
| CondVariableXP.GiversAre | plibsys/src/pcondvariable-win.c:173-200 | A permit is given exactly by a signal or broadcast that finds a waiter in the count |
| CondVariableXP.CondVariable.WaitEnter | plibsys/src/pcondvariable-win.c:152-161 | The first half of a wait is a step of the protocol |
| CondVariableXP.CondVariable.WaitReturn | plibsys/src/pcondvariable-win.c:161-171 | The end of a wait, with a permit or failed, is a step of the protocol |
| CondVariableXP.CondVariable.DoSignal | plibsys/src/pcondvariable-win.c:173-184 | A signal is a step of the protocol |
| CondVariableXP.CondVariable.DoBroadcast | plibsys/src/pcondvariable-win.c:186-200 | A broadcast is a step of the protocol |
| ShmBuffer.UsedSpace | plibsys/src/pshmbuffer.c:57-74 | The used space is the way from the reader's to the writer's slot, going round |
| ShmBuffer.FreeSpaceIs | plibsys/src/pshmbuffer.c:38-55 | The free space is what a ring with one empty slot has left, and one more exactly when the unread bytes wrap around |
| ShmBuffer.AcceptsRightlyIff | plibsys/src/pshmbuffer.c:198-249 | A write is accepted exactly when it leaves a slot empty, if and only if it is not of exactly the free length of a wrapped ring |
| ShmBuffer.Ring.constructor | plibsys/src/pshmbuffer.c:76-120 | A new ring of one slot more than the size is an empty queue |
| ShmBuffer.Ring.Read | plibsys/src/pshmbuffer.c:141-196 | The first bytes of the queue, as many as asked for or there are, go to the storage and leave the queue; the rest of the storage stays; the answer is their number as a 32-bit signed integer |
| ShmBuffer.Ring.Write | plibsys/src/pshmbuffer.c:198-249 | All bytes are taken or none, by the free space; taken bytes go to the end of the queue and no unread byte is overwritten, unless they take the last slot |
| ShmBuffer.Ring.Clear | plibsys/src/pshmbuffer.c:301-326 | The queue is empty, the data zero |
| ShmBuffer.Perform | plibsys/src/pshmbuffer.c:141-326 | One operation is that of a bounded byte queue exactly unless a write takes the last slot of a wrapped ring, which is accepted and loses everything, a read takes 2 to the 31 bytes or more, which answers a negative number, or the free space of a wrapped ring is asked for, which is one too large |
| ShmBuffer.Replay | plibsys/src/pshmbuffer.c:38-326 | A run answers as a bounded byte queue if and only if none of its operations is one of those three |
| ShmBuffer.LoseToTheBrim | plibsys/src/pshmbuffer.c:38-55 | A ring of four slots that loses all its bytes |
| ShmBuffer.ReadTooMany | plibsys/src/pshmbuffer.c:141-196 | A read of 2 to the 31 bytes takes them all and answers a negative number |
| Sha512.F0IsMaj | plibsys/src/pcryptohash-sha2-512.c:103 | The macro is the majority function |
| Sha512.F1IsCh | plibsys/src/pcryptohash-sha2-512.c:104 | The macro is the choice function |
| Sha512.RoundInPlace | plibsys/src/pcryptohash-sha2-512.c:106-112 | One in-place round under any naming of the registers is a round of section 6.4.2 of FIPS 180-4 under the next naming |
| Sha512.EightRounds | plibsys/src/pcryptohash-sha2-512.c:129-159 | Eight rounds bring the naming round to its start |
| Sha512.Expand | plibsys/src/pcryptohash-sha2-512.c:141-144 | The eighty words are the message schedule |
| Sha512.RunRounds | plibsys/src/pcryptohash-sha2-512.c:129-159 | The loop runs the eighty rounds on a copy of the hash value |
| Sha512.Process | plibsys/src/pcryptohash-sha2-512.c:129-159 | For every hash value and block the result is the compression of section 6.4.2 of FIPS 180-4 |
| ShaConstants.Fractions | plibsys/src/pcryptohash-sha2-512.c:48-89 | Each of the eighty constants is the first 64 bits of the fraction of the cube root of its prime number, as in section 4.2.3 of FIPS 180-4 |
| ShaConstants.Initial512 | plibsys/src/pcryptohash-sha2-512.c:184-193 | The initial hash value of SHA-512 is the first 64 bits of the fractions of the square roots of the first eight primes |
| ShaConstants.Initial384 | plibsys/src/pcryptohash-sha2-512.c:194-203 | The one of SHA-384 is that of the ninth to sixteenth primes |
| Words64.PlusDenotes | plibsys/src/pcryptohash-sha2-512.c:106-113 | The sum of two 64-bit words is the sum of their numbers modulo 2 to the 64 |
| Sha512Context.AbsorbedConcat | plibsys/src/pcryptohash-sha2-512.c:219-255 | Hashing whole blocks one run after the other is hashing their concatenation |
| Sha512Context.FeedBlock | plibsys/src/pcryptohash-sha2-512.c:219-255 | Filling the buffer exactly absorbs one block of the message |
| Sha512Context.CountGrows | plibsys/src/pcryptohash-sha2-512.c:229-232 | The two length words with their carry count bytes modulo 2 to the 128 |
| Sha512Context.CountedBits | plibsys/src/pcryptohash-sha2-512.c:266-268 | The two shifted words are the length in bits modulo 2 to the 128 |
| Sha512Context.PadIsFiller | plibsys/src/pcryptohash-sha2-512.c:263-264 | The piece of the padding array is the padding of section 5.1.2 of FIPS 180-4 |
| Sha512Context.SwappedParses | plibsys/src/pcryptohash-sha2-512.c:114-127 | Swapping bytes first makes a little-endian host read the words of the standard |
| Sha512Context.LastBlockParses | plibsys/src/pcryptohash-sha2-512.c:273-276 | Two length words stored natively and left out of the swap read as the standard wants |
| Sha512Padding.PaddedMeans | plibsys/src/pcryptohash-sha2-512.c:257-280 | A padded message is the message, a one bit, zeros up to the last sixteen bytes of a block, no block more than needed, and sixteen bytes that denote its length in bits modulo 2 to the 128 |
| Sha512Padding.ToWordDenotes | plibsys/src/pcryptohash-sha2-512.c:266-268 | The word of a number denotes that number |
| Sha512Padding.WordDenotes | plibsys/src/pcryptohash-sha2-512.c:116-127 | Eight bytes are read as the number that they denote, the highest first |
| Sha512Padding.BytesDenote | plibsys/src/pcryptohash-sha2-512.c:116-127 | A word is written as its digits in base 256, the highest first |
| Sha512Context.SwapBytes | plibsys/src/pcryptohash-sha2-512.c:114-127 | The bytes of the first words are reversed, the others untouched |
| Sha512Context.Context.constructor | plibsys/src/pcryptohash-sha2-512.c:161-174 | A new context has been fed nothing |
| Sha512Context.Context.Reset | plibsys/src/pcryptohash-sha2-512.c:176-205 | A reset context has been fed nothing, whatever its state |
| Sha512Context.Context.TakeBlock | plibsys/src/pcryptohash-sha2-512.c:234-242 | A filled buffer is absorbed |
| Sha512Context.Context.TakeBlocks | plibsys/src/pcryptohash-sha2-512.c:244-251 | The loop absorbs whole blocks and leaves less than one |
| Sha512Context.Context.Keep | plibsys/src/pcryptohash-sha2-512.c:253-254 | The rest of the bytes waits in the buffer |
| Sha512Context.Context.Update | plibsys/src/pcryptohash-sha2-512.c:219-255 | However it is cut, the message grows by the bytes: whole blocks absorbed, rest buffered, length counted |
| Sha512Context.Context.LastBlock | plibsys/src/pcryptohash-sha2-512.c:273-277 | The length goes into the last block, which is absorbed |
| Sha512Context.Context.Finish | plibsys/src/pcryptohash-sha2-512.c:257-280 | The bytes of the hash value are the one-shot digest of the message, whose last block carries the number of bits (see `Sha512Padding.PaddedMeans`) |
| Sha512Context.Context.SwapHash | plibsys/src/pcryptohash-sha2-512.c:279 | The final swap makes the host show the digest, cut to 48 bytes for SHA-384 |
| Sha512Context.SwapShows | plibsys/src/pcryptohash-sha2-512.c:279 | Swapped words read natively are the words written most significant byte first |
| Sha512Context.Context.ReadDigest | plibsys/src/pcryptohash-sha2-512.c:282-286 | What the caller reads after finishing is the digest |
| CryptoHash.DigestToHex | plibsys/src/pcryptohash.c:57-66 | Two lower-case hexadecimal digits per byte, high half first |
| CryptoHash.HexShows | plibsys/src/pcryptohash.c:57-66 | Each two characters of the text are digits 0 to 9 or a to f that denote the byte in base 16 |
| CryptoHash.HexDecides | plibsys/src/pcryptohash.c:57-66 | Different digests have different texts |
| CryptoHash.Handle.constructor | plibsys/src/pcryptohash.c:68-122 | A new handle is open and has been fed nothing |
| CryptoHash.Handle.Update | plibsys/src/pcryptohash.c:124-136 | The message grows unless the handle was read, in which case nothing changes |
| CryptoHash.Handle.Reset | plibsys/src/pcryptohash.c:138-147 | The handle is open again with an empty message |
| CryptoHash.Handle.Close | plibsys/src/pcryptohash.c:149-209 | The context is finished at most once |
| CryptoHash.Handle.GetString | plibsys/src/pcryptohash.c:149-172 | Null for an empty message, otherwise the digest as text; the handle is closed then |
| CryptoHash.Handle.GetDigest | plibsys/src/pcryptohash.c:174-209 | Nothing for an empty message or too small a buffer, otherwise the digest; the handle is closed then |
| CryptoHash.Perform | plibsys/src/pcryptohash.c:124-209 | One call after any calls answers as expected and leaves the handle where the calls lead |
| CryptoHash.Replay | plibsys/src/pcryptohash.c:68-209 | For every sequence of new, update, reset and get calls, every answer is the one-shot SHA-512 or SHA-384 digest of the updates since the last reset and before the first read |
| CryptoHash.ReadsAgree | plibsys/src/pcryptohash.c:149-209 | After a read that gave a digest only a reset changes what is read |
| CryptoHash.ChunkingIsIrrelevant | plibsys/src/pcryptohash.c:124-136 | Only the concatenation of the updates counts |
| Sha256.MacrosAre | plibsys/src/pcryptohash-sha2-256.c:75-76 | The two macros are the majority and the choice function |
| Sha256.RoundInPlace | plibsys/src/pcryptohash-sha2-256.c:84-90 | One in-place round under any naming of the registers is a round of section 6.2.2 of FIPS 180-4 |
| Sha256.NextWord | plibsys/src/pcryptohash-sha2-256.c:78-82 | The word computed in the round is that of the message schedule |
| Sha256.EightRounds | plibsys/src/pcryptohash-sha2-256.c:121-130 | Eight rounds on the words of the block bring the naming round |
| Sha256.EightMoreRounds | plibsys/src/pcryptohash-sha2-256.c:132-141 | Eight rounds that compute their words on the way bring the naming round |
| Sha256.RunRounds | plibsys/src/pcryptohash-sha2-256.c:116-141 | The two loops run the sixty-four rounds |
| Sha256.Process | plibsys/src/pcryptohash-sha2-256.c:107-145 | For every hash value and block the result is the compression of section 6.2.2 of FIPS 180-4 |
| ShaConstants.UpperHalves | plibsys/src/pcryptohash-sha2-256.c:44-61 | Each of the sixty-four constants is the first 32 bits of the same fraction, as in section 4.2.2 of FIPS 180-4 |
| Words32.PlusDenotes | plibsys/src/pcryptohash-sha2-256.c:84-91 | The sum of two 32-bit words is the sum of their numbers modulo 2 to the 32 |
| Sha1.MacroIs | plibsys/src/pcryptohash-sha1.c:47-49 | The three macros are the functions of section 4.1.1 of FIPS 180-4 |
| Sha1.RoundInPlace | plibsys/src/pcryptohash-sha1.c:61-87 | One in-place round of any of the four kinds is a round of section 6.1.2 of FIPS 180-4 |
| Sha1.NextWord | plibsys/src/pcryptohash-sha1.c:51-59 | The window of sixteen words, read and written modulo 16, yields the schedule of eighty words |
| Sha1.FiveRounds | plibsys/src/pcryptohash-sha1.c:104-203 | Five rounds bring the naming round |
| Sha1.RunRounds | plibsys/src/pcryptohash-sha1.c:104-203 | The eighty rounds of the standard |
| Sha1.Process | plibsys/src/pcryptohash-sha1.c:104-210 | For every hash value and block the result is the compression of section 6.1.2 of FIPS 180-4 |
| ShaConstants.RootsOfSha1 | plibsys/src/pcryptohash-sha1.c:61-87 | The four constants are the square roots of 2, 3, 5 and 10 with 30 bits after the point |
| GostMixing.PsiShowsStream | plibsys/src/pcryptohash-gost3411.c:271-369 | k steps of the shift register show sixteen half-words of one stream |
| GostMixing.SelectedXor | plibsys/src/pcryptohash-gost3411.c:271-369 | Sums of half-words are linear in the set of half-words summed |
| GostMixing.AllKnown | plibsys/src/pcryptohash-gost3411.c:271-369 | For the first 77 half-words of the stream, which half-words of the start they are the sum of |
| GostMixing.AfterTwelveIs | plibsys/src/pcryptohash-gost3411.c:273-312 | The first block of exclusive ors adds 12 steps of the register to the message block |
| GostMixing.AfterOneIs | plibsys/src/pcryptohash-gost3411.c:314-325 | The second block adds one step to the hash value |
| GostMixing.AfterSixtyOneIs | plibsys/src/pcryptohash-gost3411.c:327-369 | The third block is 61 steps |
| GostMixing.Mix | plibsys/src/pcryptohash-gost3411.c:271-369 | For all inputs the new hash value is PSI^61(H xor PSI(M xor PSI^12(S))), as in section 5.3 of RFC 5831 |
| GostSum.Sum256 | plibsys/src/pcryptohash-gost3411.c:181-196 | The in-place loop computes the limb by limb sum with the carry test of the source |
| GostSum.LimbAdds | plibsys/src/pcryptohash-gost3411.c:191-195 | Except for two limbs of all ones with a carry in, the carry test is right |
| GostSum.AddsButLost | plibsys/src/pcryptohash-gost3411.c:181-196 | The result falls short of the true sum by exactly the lost carries |
| GostSum.AddsModuloIff | plibsys/src/pcryptohash-gost3411.c:181-196 | The sum is right modulo 2 to the 256 if and only if no limb below the highest loses its carry |
| GostSum.LosesACarry | plibsys/src/pcryptohash-gost3411.c:181-196 | Two numbers whose sum comes out wrong |
| GostSum.LengthCounts | plibsys/src/pcryptohash-gost3411.c:392-399 | Adding the bits of an update to the length is exact modulo 2 to the 256 |
| GostSum.LengthGrows | plibsys/src/pcryptohash-gost3411.c:385-399 | Limbs that hold eight times the bytes fed modulo 2 to the 256 still do after any update shorter than 2 to the 32 bytes, or much longer |
| GostStep.PermutedIs | plibsys/src/pcryptohash-gost3411.c:130-164 | The masks and shifts of the macro are the byte permutation P of section 5.1 of RFC 5831 |
| GostStep.SecondKey | plibsys/src/pcryptohash-gost3411.c:219-227 | Without moving a word, the writes apply A to U and twice to V, read from places 2 and 4 on, and sum them |
| GostStep.ThirdKey | plibsys/src/pcryptohash-gost3411.c:231-249 | The same from there, with the constant, read from places 4 and 0 on |
| GostStep.FourthKey | plibsys/src/pcryptohash-gost3411.c:253-261 | The same from there |
| GostStep.GenerateKeys | plibsys/src/pcryptohash-gost3411.c:204-263 | For every hash value and block the four keys are those of section 5.1 of RFC 5831 |
| GostStep.BoxesApart | plibsys/src/pcryptohash-gost3411.c:68-75 | Each substitution box replaces its own four bits |
| GostStep.Looks | plibsys/src/pcryptohash-gost3411.c:68-75 | The eight table lookups, shifted and joined, are the substitution of the standard |
| GostStep.RoundInPlace | plibsys/src/pcryptohash-gost3411.c:62-80 | One round on the two registers is a cycle of section 5 of RFC 5830 |
| GostStep.Encrypt | plibsys/src/pcryptohash-gost3411.c:83-127 | The 32 rounds, the words of the key three times upwards and once downwards, and the final exchange are the encryption of a block, whose last cycle leaves the registers in place |
| GostStep.NextUp | plibsys/src/pcryptohash-gost3411.c:89-114 | Cycles 8 j + i of the first 24 use word i of the key |
| GostStep.NextDown | plibsys/src/pcryptohash-gost3411.c:116-123 | The last eight cycles use the words of the key from the highest down |
| GostStep.EncryptionDecides | plibsys/src/pcryptohash-gost3411.c:83-127 | Under every key different blocks have different encryptions |
| GostStep.Process | plibsys/src/pcryptohash-gost3411.c:199-369 | For every hash value and block the new hash value is the step function of section 5 of RFC 5831 |
| GostContext.AbsorbedConcat | plibsys/src/pcryptohash-gost3411.c:412-420 | Hashing and summing whole blocks one run after the other is doing so with their concatenation |
| GostContext.FeedBlock | plibsys/src/pcryptohash-gost3411.c:401-410 | Filling the buffer exactly folds in one block of the message |
| GostContext.CountedTail | plibsys/src/pcryptohash-gost3411.c:392 | The lowest limb of the length says how full the buffer is |
| GostContext.PaddedMeans | plibsys/src/pcryptohash-gost3411.c:434-439 | A padded message is the message and as few zeros as fill its last block |
| GostNumbers.NumberDenotes | plibsys/src/pcryptohash-gost3411.c:392-420 | A block is summed as the number whose 32 digits in base 256 are its bytes, the lowest first |
| GostNumbers.LimbsDenote | plibsys/src/pcryptohash-gost3411.c:441-442 | The limbs of the length or the sum are hashed as the 32 bytes of the number that they denote |
| GostNumbers.LengthDenotes | plibsys/src/pcryptohash-gost3411.c:441 | The block of the length is the number of bits modulo 2 to the 256 |
| GostContext.Context.constructor | plibsys/src/pcryptohash-gost3411.c:372-383 | A new context has been fed nothing |
| GostContext.Context.Reset | plibsys/src/pcryptohash-gost3411.c:453-460 | A reset context has been fed nothing, whatever its state |
| GostContext.Context.TakeBlock | plibsys/src/pcryptohash-gost3411.c:402-405 | A filled buffer is hashed and summed |
| GostContext.Context.TakeBlocks | plibsys/src/pcryptohash-gost3411.c:412-420 | The loop takes in whole blocks and leaves less than one |
| GostContext.Context.Keep | plibsys/src/pcryptohash-gost3411.c:422-423 | The rest of the bytes waits in the buffer |
| GostContext.Context.Update | plibsys/src/pcryptohash-gost3411.c:385-424 | However it is cut, the message grows by the bytes: whole blocks hashed and summed, rest buffered, bits counted modulo 2 to the 256; for every length below 2 to the 32, and for longer ones unless the cut length misjudges a waiting block |
| GostContext.ShortIsMeasured | plibsys/src/pcryptohash-gost3411.c:385-424 | Every update of less than 2 to the 32 bytes meets the condition on lengths, however many bytes are waiting |
| GostContext.Context.Finish | plibsys/src/pcryptohash-gost3411.c:426-445 | The hash value is the one-shot digest of the message: padded with zeros, then the length, then the sum |
| GostContext.Context.ReadDigest | plibsys/src/pcryptohash-gost3411.c:447-451 | What the caller reads after finishing is the digest |
| GostContext.SumFallsShort | plibsys/src/pcryptohash-gost3411.c:181-196 | Over any run of blocks the sum falls short of the true one by exactly the carries lost, modulo 2 to the 256 |
| GostContext.ChecksumIff | plibsys/src/pcryptohash-gost3411.c:181-196 | The sum of all blocks is that of the standard if and only if the lost carries are worth a multiple of 2 to the 256 |
| GostContext.ChecksumGoesWrong | plibsys/src/pcryptohash-gost3411.c:181-196 | A message of two equal blocks whose checksum is not that of the standard |
| GostContext.DigestIsStandard | plibsys/src/pcryptohash-gost3411.c:426-445 | In that case the digest is the hash of section 6 of RFC 5831 |

## Left out

Trees:

- The destroy functions are not called but told: the methods return the pairs that go to them. What the functions do is
  not part of the model.
- Overflow of the `pint` node count, null arguments, failing allocation and `p_tree_free` of the handle itself.
- The compare function is modelled by integer ranks of keys, which represent any total preorder on finitely many
  keys; compare functions that are not consistent are outside the library's promise.
- One `Node` class stands for the three node structures; a back end uses only its own fields. Left and right cases
  that the C code spells out twice are sometimes one method.
- RedBlack.AddLeaf: is a part of the insert function, split off for its contract; so are the other methods named
  after a case.

General read-write lock:

- RWLock.Lock.ReaderLock: the mutex is modelled by taking a whole section at once, so the method ends where the
  function waits and `ReaderResume` takes it up again; likewise for writers. Failures of the mutex are left out.
- RWLock.NoLostWakeup: requires that no failed wait takes a wake-up with it, which is exactly when the invariant it rests
  on holds (`RunLively`); signals and broadcasts always succeed, and only holders unlock.
- Fairness and writer preference: new readers may overtake a waiting writer.

Emulated read-write lock and condition variable:

- RWLockXP.Lock.StartRead: the loops of the source go on until their exchange succeeds; the model bounds them by a
  parameter, which may be any number, and stops in the middle once that many accesses are made. The same holds for the
  other functions with loops.
- The event object: a blocked thread may go on at any time, which covers every behaviour of the event; progress is
  not claimed, since a reader sets the event before its exchange.
- RWLockXP.Lock.EndWrite: the inner loop that waits for the waiting count to drop is one more turn of the loop.
- The semaphore's maximum and failures of `ReleaseSemaphore` and `SetEvent`.

Hashes:

- Streaming of SHA-256, SHA-224, SHA-1 and MD5, which buffers as SHA-512 does but truncates lengths to 32 bits, and the
  handle over hashes other than SHA-512 and SHA-384.
- GostContext.DigestIsStandard: goes one way only; that a wrong checksum changes the digest would be a claim about
  collisions of the step function. For the empty message, whose digest a handle never gives, the hash that is taken as
  the standard's has no block before the length.
- GostContext.Context.Update: requires, for updates of 2 to the 32 bytes and more, that the length cut to 32 bits still
  says whether the waiting bytes become a block, and that its bits fit two limbs. Otherwise the source writes past the
  waiting bytes.
- GostStep.GenerateKeys: the local arrays `U`, `V` and `W`, whose places the source names by constants only, are values
  with eight fields that are updated one by one.
- GostMixing.Mix: the three blocks of exclusive ors are tables of terms, three to a line as in the source, which are
  evaluated from left to right.
- Sha1.RunRounds: the eighty rounds, which the source writes out, are a loop over five rounds.
- Sha512Context.Context.Update: length words are natural numbers with their wrap-around written out, and one update
  is shorter than 2 to the 64 bytes; the host is little-endian.
- ShaConstants.Fractions: the list of the first eighty prime numbers is taken for granted.

Ring buffer:

- ShmBuffer.Ring.Write: the shared segment is an array and two positions instead of raw bytes; segments have fewer
  than 2 to the 32 bytes because the copy loops count with 32 bits. `psize` and `pssize` are taken to have 64 bits; on a
  32-bit host the answers of a write and of the two questions for space would be narrowed as that of a read is. Failures
  of the shared memory's lock and attaching to an existing segment are left out.

Everything else in the repository (hash table, lists, strings, errors, sockets, files, directories, semaphores,
processes, native threads, mutexes and Vista lock variants, `pinifile.c`, library loading, time) is not part of this
model.
