# Verified core of the kernel and RTOS components

A Dafny model of the algorithms in this repository whose correctness is hard to see from the code, with proofs of what
they are for. `dafny verify dfyconfig.toml` checks everything.

Each module follows one component of the source and takes its form: code that changes objects, arrays and links in place
is a class with methods proved against a sequence, a map or a value; code that several threads run at once is a
transition system with one step per atomic access, and its theorems are about every run of any number of threads.

| file | component |
|---|---|
| `RedBlackTree.dfy` | the red-black tree with parent links, a shared sentinel and equal keys (`mini_rtos/src/rbtree.c`) |
| `Linearizability.dfy`, `LockFreeQueue.dfy`, `LockFreeQueueProgress.dfy`, `LockFreeStack.dfy`, `LockFreeStackProgress.dfy` | the Michael-Scott queue and the Treiber stack (`mini_rtos/src/lockless.c`) |
| `Primes.dfy`, `HashTable.dfy` | open addressing with tombstones and prime sizes (`mini_rtos/src/hashtable.c`) |
| `Kfifo.dfy` | the byte ring with free-running 32-bit indices (`kernel_buffers.h`) |
| `TicketLock.dfy`, `ReaderWriterLock.dfy` | the ticket lock and the writer-preferring reader-writer lock (`spinlock.c`) |
| `MultiQueue.dfy`, `MultiQueueSync.dfy` | the sorted doubly linked queue and its two semaphores (`mini_rtos/src/multiqueue.c`) |
| `TaskControl.dfy`, `Scheduler.dfy` | the priority scheduler and its priority inheritance (`mini_rtos/src/scheduler.c`) |
| `PriorityInheritance.dfy` | priority inheritance along chains of mutexes (`scheduler_features.c`) |
| `TokenBucket.dfy` | the traffic shaper (`mini_rtos/src/traffic_control.c`) |
| `Machine.dfy`, `Arithmetic.dfy`, `Options.dfy` | 32-bit wrap-around, powers of two, positions on a ring, optional values |

How the main proofs work:

- **Red-black tree.** Every node carries ghost labels: its position in the in-order sequence, the slice of that sequence
  its subtree holds, and its black height. All invariants are then local to a node and its neighbours, a rotation is an
  exact effect on at most four nodes, and each fix-up case is one small lemma per node. `ShapeIsRedBlack` translates the
  labels back into an ordinary recursive red-black tree.
- **Lock-free structures.** The state carries a history with the invocation, the point of effect and the return of every
  operation, and a log of the operations that changed the container. The invariant says that replaying the log on a
  sequential container gives the answers that were given, and ends in the values that are now linked.
- **Progress.** A thread that runs alone gets what it asked for within a fixed number of steps, from every state of the
  invariant: for the lock-free structures by a rank that every step lowers and an expected answer that no step changes,
  for the locks and semaphores by following the steps of one call.
- **Locks and semaphores.** The fields of the lock are tied to the number of threads at certain program points; one
  arithmetic lemma covers all steps, one cardinality lemma connects it to the threads.
- **Hash table.** Every operation refines the same operation on a mathematical map; insert and resize call each other and
  terminate because a resize started by an insert leaves room for all entries.

What the proofs show where the code does not do what one might expect, each with the input and the exact condition:

- **`task_yield` queues a task twice.** It calls `scheduler_add_task` for the running task, which is still in the priority
  tree (`mini_rtos/src/scheduler.c:561`). A later change of the task's priority then leaves a node under the old key behind.
  `InheritPriority` and `ReleaseInheritedPriority` keep every stored key right if and only if the task had at most one
  node (or its priority did not change). `PerformAll` carries the condition through whole runs, and `AddsOnceIsCalm` shows
  that runs that never add a queued task meet it.
- **`get_next_task` can then return a task that is not the most urgent one.** Starting from right keys, an inheritance
  never causes this (`InheritKeepsUrgent`). After a release it is right if and only if the task had at most one node, or
  was not the next task, or nobody is more urgent than it is now (`ReleaseUrgentIff`). `YieldMisleads` is a run of three
  queued tasks after which the task of priority 1 is preferred to those of priority 2 and 3.
- **`rb_find_task` can miss a task when keys are equal.** `FindsTaskIff` gives the exact condition;
  `FindTaskMissesEqualKeys` inserts three tasks under one key and does not find the first. Among nodes of one task equal
  keys do no harm (`FindsSomeNode`).
- **`priority_key` tells priorities apart if and only if the id has at most 24 bits** (`KeyTellsPriorityIff`). Ids in
  this code stay far below: `task_create` numbers at most `MAX_TASKS` = 32 tasks (`mini_rtos/src/scheduler.c:135,152`).
- **The kfifo is first-in first-out if and only if its size is a power of two** (`FifoIffPowerOfTwo`); `kfifo_init` does
  not check the size.
- **`raw_spin_trylock` can let a second thread in.** Its swap keeps the lock exclusive if and only if no ticket is
  outstanding when it succeeds (`SwapIsExclusiveIff`); so a run is exclusive all along if and only if no swap of it succeeds
  with a ticket outstanding (`RunIsExclusiveIff`). This holds as long as `next_ticket` does not run through a whole 32-bit
  cycle between read and swap (`NoFullCycleSuffices`). `FullCycleBreaksTrylock` is a run of two threads from the initial
  state that ends with both inside.
- **`pi_mutex_lock` passes a boost on only if the owner is marked uninterruptible.** `Contend` states exactly when the whole
  wait-for graph is well served afterwards, `BoostStops` is a graph in which it is not.
- **The shaper does not deliver the promised rate.** Each call rounds its refill down to whole tokens and starts the next
  interval from there, the 32-bit product may overflow, and so may the sum: one more token empties a full bucket of the
  largest size (`FullBucketEmpties`). One refill is the intended one if and only if it fills the bucket or neither product
  nor sum overflows (`IdealIff`). A whole run, with buckets that fill up or not, has the whole tokens of an exact bucket
  after every call if and only if each refill fills the bucket, or overflows nowhere and the remainders dropped since it
  was last full make no whole token (`FollowsIff`). The sum overflows in no run if and only if the size is at most
  2^32 - 1 - 4294967 (`SafeSizeIff`). With a rate below 1000 and a call every millisecond the bucket is never refilled
  (`Starves`).
- **`ht_clear` leaves tombstones in place** (`Clear`).

## Model

| member | source | states |
|---|---|---|
| `RedBlackTree.Tree.constructor` | mini_rtos/src/rbtree.c:176-187 | an initialised tree is a valid red-black tree with no nodes |
| `RedBlackTree.Tree.LeftRotate` | mini_rtos/src/rbtree.c:20-40 | keeps parent links, in-order sequence and root consistent; the exact change of every node |
| `RedBlackTree.Tree.RightRotate` | mini_rtos/src/rbtree.c:42-62 | the mirror image |
| `RedBlackTree.Tree.Recolor` | mini_rtos/src/rbtree.c:69-73 | a red uncle: the only possible red-red edge moves up to the grandparent, black heights stay equal |
| `RedBlackTree.Tree.InsertRoundLeft` | mini_rtos/src/rbtree.c:66-82 | one round with the parent on the left: the only possible red-red edge has moved up or is gone |
| `RedBlackTree.Tree.InsertRoundRight` | mini_rtos/src/rbtree.c:83-100 | the mirror image |
| `RedBlackTree.Tree.InsertFixup` | mini_rtos/src/rbtree.c:64-103 | terminates and turns one red-red edge into none, with a black root and the same in-order sequence |
| `RedBlackTree.Tree.FindGap` | mini_rtos/src/rbtree.c:193-203 | the descent ends at the gap after every key <= the new one and before every larger key |
| `RedBlackTree.Tree.InsertLeaf` | mini_rtos/src/rbtree.c:193-215 | the new leaf takes that gap; all links stay consistent |
| `RedBlackTree.Tree.Insert` | mini_rtos/src/rbtree.c:189-217 | a valid tree stays valid, its sequence gains exactly the new node, after all keys <= its own and before all larger ones, so equal keys stay in insertion order |
| `RedBlackTree.Tree.Transplant` | mini_rtos/src/rbtree.c:105-114 | v takes u's place below u's parent, and nothing else changes |
| `RedBlackTree.Tree.ReplaceBySuccessor` | mini_rtos/src/rbtree.c:233-245 | the exact new links of every node when the successor moves up, also when it is the child of the deleted node or its own child is the sentinel |
| `RedBlackTree.Tree.Unlink` | mini_rtos/src/rbtree.c:220-247 | the sequence loses exactly z; the tree is balanced, or one black short at one known place |
| `RedBlackTree.Tree.Lighten` | mini_rtos/src/rbtree.c:128-130 | a black sibling with black children turns red and the shortage moves up |
| `RedBlackTree.Tree.DeleteCase1Left` | mini_rtos/src/rbtree.c:121-126 | a red sibling is rotated away; the shortage stays where it is, now with a black sibling |
| `RedBlackTree.Tree.DeleteCase1Right` | mini_rtos/src/rbtree.c:147-152 | the mirror image |
| `RedBlackTree.Tree.DeleteCase3Left` | mini_rtos/src/rbtree.c:132-137 | the sibling's red inner child becomes its red outer child |
| `RedBlackTree.Tree.DeleteCase3Right` | mini_rtos/src/rbtree.c:158-163 | the mirror image |
| `RedBlackTree.Tree.DeleteCase4Left` | mini_rtos/src/rbtree.c:138-142 | a red outer child ends the shortage: the tree is balanced |
| `RedBlackTree.Tree.DeleteCase4Right` | mini_rtos/src/rbtree.c:164-168 | the mirror image |
| `RedBlackTree.Tree.DeleteRoundLeft` | mini_rtos/src/rbtree.c:118-143 | one round with x on the left: the shortage is gone or one level higher |
| `RedBlackTree.Tree.DeleteRoundRight` | mini_rtos/src/rbtree.c:144-170 | the mirror image |
| `RedBlackTree.Tree.DeleteFixup` | mini_rtos/src/rbtree.c:116-173 | terminates and turns a tree that is one black short into a balanced one |
| `RedBlackTree.Tree.Delete` | mini_rtos/src/rbtree.c:219-255 | a valid tree stays valid, its sequence loses exactly the deleted node, all other node objects are kept |
| `RedBlackTree.Tree.Minimum` | mini_rtos/src/rbtree.c:257-262 | the first node of the subtree in order |
| `RedBlackTree.Tree.Maximum` | mini_rtos/src/rbtree.c:264-269 | the last node of the subtree in order |
| `RedBlackTree.Tree.Successor` | mini_rtos/src/rbtree.c:271-282 | the next node in order, nil after the last one |
| `RedBlackTree.Tree.Predecessor` | mini_rtos/src/rbtree.c:284-295 | the previous node in order, nil before the first one: the inverse of the successor |
| `RedBlackTree.Tree.Walk` | mini_rtos/src/rbtree.c:257-282 | following rb_successor from rb_minimum visits exactly the in-order sequence and ends at nil |
| `RedBlackTree.Tree.Search` | mini_rtos/src/rbtree.c:297-309 | finds a node with the key if and only if there is one, within 2 * log2(n + 1) levels |
| `RedBlackTree.Tree.FindTaskNode` | mini_rtos/src/rbtree.c:311-327 | the loop follows the recursive descent on the tree as a value |
| `RedBlackTree.Tree.FindsTaskIff` | mini_rtos/src/rbtree.c:311-327 | a task in the tree is found if and only if the node after its subtree has a larger key or does not exist |
| `RedBlackTree.FindsNothingElse` | mini_rtos/src/rbtree.c:311-327 | a task that is not in the tree is not found |
| `RedBlackTree.Tree.FindsSomeNode` | mini_rtos/src/rbtree.c:311-327 | if all nodes with a key belong to one task, some node of that task is found under it |
| `RedBlackTree.Tree.FirstOfThreeMissed` | mini_rtos/src/rbtree.c:311-327 | in every valid tree of three equal keys the first task is missed |
| `RedBlackTree.FindTaskMissesEqualKeys` | mini_rtos/src/rbtree.c:189-217 | three inserts under one key into an empty tree, after which rb_find_task does not find the first task |
| `RedBlackTree.Tree.ShapeIsRedBlack` | mini_rtos/src/rbtree.c:64-103 | the valid linked tree is a recursive red-black tree whose in-order sequence is the ghost sequence |
| `RedBlackTree.HeightBound` | mini_rtos/src/rbtree.c:297-309 | a red-black tree of n nodes has height at most 2 * log2(n + 1) |
| `Linearizability.RealTimeOrder` | mini_rtos/src/lockless.c:42-104 | in a linearizable history an operation that returned before another was called takes effect before it |
| `Linearizability.EffectKeeps` | mini_rtos/src/lockless.c:55-63 | logging one more effective operation keeps a history linearizable and changes the replayed container as that operation does |
| `LockFreeQueue.LinkKeeps` | mini_rtos/src/lockless.c:54-58 | the compare-and-swap on tail->next is where an enqueue takes effect |
| `LockFreeQueue.SwingKeeps` | mini_rtos/src/lockless.c:59-71 | moving tail on, by the enqueuer or by a helper, changes nothing in the queue |
| `LockFreeQueue.DeqLoadNextKeeps` | mini_rtos/src/lockless.c:78-86 | an empty answer takes effect at the read of head->next |
| `LockFreeQueue.UnlinkKeeps` | mini_rtos/src/lockless.c:92-99 | the compare-and-swap on head is where a dequeue takes effect, and the value read before it is the oldest one |
| `LockFreeQueue.CountKeeps` | mini_rtos/src/lockless.c:63-64 | the late update of the size counter keeps the counting invariant |
| `LockFreeQueue.StepKeepsInv` | mini_rtos/src/lockless.c:42-104 | every atomic step of every thread keeps the invariant |
| `LockFreeQueue.EveryRunIsCorrect` | mini_rtos/src/lockless.c:22-104 | in every run the history is linearizable to a FIFO queue, head never passes tail, tail lags by at most one node, line 92 never follows NULL, and size is the length up to operations that still have to count, mod 2^32 |
| `LockFreeQueueProgress.StepAdvances` | mini_rtos/src/lockless.c:42-104 | every step of a thread that runs alone brings its operation closer to its return and leaves the expected answer and effect as they are |
| `LockFreeQueueProgress.ReturnsAlone` | mini_rtos/src/lockless.c:42-104 | an operation that goes on alone, wherever it is, returns within 16 steps with the expected answer and effect |
| `LockFreeQueueProgress.CallReturnsAlone` | mini_rtos/src/lockless.c:42-104 | from every state of the invariant a call that runs alone returns within 17 steps: an enqueue true with its value at the end, a dequeue the first value which is gone, or nothing exactly if the queue is empty |
| `LockFreeQueueProgress.LuckyStepsExist` | mini_rtos/src/lockless.c:42-104 | there is always such a run |
| `LockFreeQueueProgress.NoMemoryHasReason` | mini_rtos/src/lockless.c:43-44 | in every run an enqueue gives up only if its own allocation failed |
| `LockFreeStack.PushKeeps` | mini_rtos/src/lockless.c:127-130 | the compare-and-swap of a push is where it takes effect |
| `LockFreeStack.PopKeeps` | mini_rtos/src/lockless.c:146-151 | the compare-and-swap of a pop is where it takes effect: next is still the node below |
| `LockFreeStack.StepKeepsInv` | mini_rtos/src/lockless.c:117-162 | every atomic step of every thread keeps the invariant |
| `LockFreeStack.EveryRunIsCorrect` | mini_rtos/src/lockless.c:107-162 | in every run the history is linearizable to a LIFO stack, and size is the depth up to operations that still have to count, mod 2^32 |
| `LockFreeStackProgress.StepAdvances` | mini_rtos/src/lockless.c:117-162 | every step of a thread that runs alone brings its operation closer to its return and leaves the expected answer and effect as they are |
| `LockFreeStackProgress.ReturnsAlone` | mini_rtos/src/lockless.c:117-162 | an operation that goes on alone, wherever it is, returns within 13 steps with the expected answer and effect |
| `LockFreeStackProgress.CallReturnsAlone` | mini_rtos/src/lockless.c:117-162 | from every state of the invariant a call that runs alone returns within 10 steps: a push true with its value on top, a pop the top value which is gone, or nothing exactly if the stack is empty |
| `LockFreeStackProgress.NoMemoryHasReason` | mini_rtos/src/lockless.c:118-119 | in every run a push gives up only if its own allocation failed |
| `Primes.IsPrime` | mini_rtos/src/hashtable.c:10-21 | trial division by 2, 3 and 6k-1, 6k+1 decides primality for every n |
| `Primes.Wheel` | mini_rtos/src/hashtable.c:15-19 | one round of the loop rules out six divisors by testing two |
| `Primes.NextPrime` | mini_rtos/src/hashtable.c:23-36 | terminates and returns the least prime above n |
| `Primes.PrimeAbove` | mini_rtos/src/hashtable.c:29-34 | Euclid: there is always a prime above n, which bounds the search |
| `HashTable.Table.constructor` | mini_rtos/src/hashtable.c:93-112 | a new table holds the empty map, and its size is the least prime above the requested size, or above 256 if that is 0 |
| `HashTable.Table.FindSlot` | mini_rtos/src/hashtable.c:130-157 | terminates; found exactly if the key is in the map, and then at its slot; otherwise the first slot on its way that holds no key, a tombstone included, from which the key stays reachable |
| `HashTable.PutNew` | mini_rtos/src/hashtable.c:182-197 | filling such a slot, tombstone or not, hides and duplicates no key |
| `HashTable.PutOld` | mini_rtos/src/hashtable.c:174-180 | overwriting the value of a key changes the map at that key only |
| `HashTable.Bury` | mini_rtos/src/hashtable.c:210-214 | a tombstone keeps every other key reachable |
| `HashTable.NotFull` | mini_rtos/src/hashtable.c:163-172 | below the load limit some slot holds no key |
| `HashTable.Table.Insert` | mini_rtos/src/hashtable.c:159-200 | updates the map at the key; occupancy stays at most 3/4; growth happens exactly when crowded, to the next prime above twice the size, so that resizes do not nest |
| `HashTable.Table.Remove` | mini_rtos/src/hashtable.c:202-223 | removes the key from the map, -1 exactly if it was not there; shrinks to the next prime above half the size exactly when sparse, otherwise size and array stay |
| `HashTable.Table.Get` | mini_rtos/src/hashtable.c:225-234 | the value in the map, or nothing |
| `HashTable.Table.Resize` | mini_rtos/src/hashtable.c:245-273 | preserves every entry for every requested size, also a tiny one; -1 and no change for 0; exactly the next prime if the entries fit |
| `HashTable.Table.MoveAll` | mini_rtos/src/hashtable.c:261-269 | reinserting the old slots one by one rebuilds the same map |
| `HashTable.Table.Clear` | mini_rtos/src/hashtable.c:275-286 | the map is empty; the array stays, and exactly its tombstones are kept |
| `HashTable.Perform` | mini_rtos/src/hashtable.c:130-286 | one call changes the table and answers as the same operation on a mathematical map |
| `HashTable.PerformAll` | mini_rtos/src/hashtable.c:130-286 | so does every sequence of calls |
| `Kfifo.MaskIsSlot` | kernel_buffers.h:172-176 | masking with size - 1 is the remainder by a power-of-two size |
| `Kfifo.WrapOnRing` | kernel_buffers.h:178-179 | the 32-bit wrap-around of an index does not move it on the ring |
| `Kfifo.InAppends` | kernel_buffers.h:165-180 | kfifo_in appends as many bytes as fit, for every power-of-two size and all index values, across the end of the buffer |
| `Kfifo.OutTakes` | kernel_buffers.h:182-197 | kfifo_out takes as many bytes as there are off the front |
| `Kfifo.FifoIffPowerOfTwo` | kernel_buffers.h:158-197 | the ring is first-in first-out if and only if the size is a power of two |
| `Kfifo.LosingInput` | kernel_buffers.h:165-180 | an input that overwrites its own first byte, for every other size |
| `Kfifo.Fifo.constructor` | kernel_buffers.h:158-163 | an empty ring of the given size |
| `Kfifo.CopyAround` | kernel_buffers.h:172-177 | the two copies on the array, from the offset to the end and then from the start |
| `Kfifo.Fifo.Put` | kernel_buffers.h:165-180 | for a power-of-two size the contents gain as many bytes of the input as fit; a ring of size 0 takes nothing; for every size the array holds what the two copies put there |
| `Kfifo.Fifo.Get` | kernel_buffers.h:182-197 | for a power-of-two size the contents are the bytes handed out followed by what is left, and as many are handed out as are asked for and there; a ring of size 0 hands out nothing |
| `TicketLock.Bounded` | spinlock.c:164-175 | fewer than 2^32 tickets are outstanding, so equal 32-bit tickets are equal tickets |
| `TicketLock.StepKeepsInv` | spinlock.c:164-194 | every step of every thread keeps the invariant, a swap of trylock if no ticket is outstanding |
| `TicketLock.SwapKeepsInvIff` | spinlock.c:187-190 | a swap of trylock that succeeds keeps the invariant if and only if no ticket is outstanding |
| `TicketLock.SwapIsExclusiveIff` | spinlock.c:187-190 | it keeps the lock exclusive if and only if no ticket is outstanding; otherwise another thread has its turn, and both are inside at once or after one more step of that thread |
| `TicketLock.InvIsExclusive` | spinlock.c:164-194 | in a state of the invariant at most one thread is inside or has its turn |
| `TicketLock.RunIsExclusiveIff` | spinlock.c:157-194 | every run of fewer than 2^32 threads is exclusive all along if and only if no swap of it succeeds with a ticket outstanding |
| `TicketLock.NoFullCycleSuffices` | spinlock.c:184-187 | which holds as long as next_ticket does not run through a full cycle between read and swap |
| `TicketLock.EveryRunIsExclusiveAndFair` | spinlock.c:157-194 | in every such run at most one thread is between winning and giving back, the lock is granted in ticket order with none skipped across wrap-around, owner_cpu names the holder |
| `TicketLock.TrylockAlone` | spinlock.c:183-194 | with no ticket outstanding an undisturbed trylock gets the lock, with the ticket that was next |
| `TicketLock.TrylockFailsOnlyIf` | spinlock.c:183-194 | a trylock fails only if a ticket is outstanding when it compares, or next_ticket has moved since its read |
| `TicketLock.FailedTrylockHadReason` | spinlock.c:183-194 | the same over every run |
| `TicketLock.LockAlone` | spinlock.c:164-175 | with no ticket outstanding an undisturbed lock gets the lock |
| `TicketLock.HolderAlone` | spinlock.c:172-181 | the winner holds the lock on its processor and gives it back in two steps |
| `TicketLock.UnlockPassesOn` | spinlock.c:177-181 | giving the lock back makes it the turn of the thread with the next ticket |
| `TicketLock.FullCycleBreaksTrylock` | spinlock.c:183-194 | a run of two threads from the initial state, with 2^32 - 1 lock and unlock rounds between read and swap, that ends with both inside |
| `ReaderWriterLock.StepKeepsInv` | spinlock.c:40-154 | every step of every thread keeps the invariant |
| `ReaderWriterLock.EveryRunIsExclusive` | spinlock.c:74-154 | in every run readers counts read holders, writers counts announced and active writers, writing holds exactly while one thread has write access, and then no reader does |
| `ReaderWriterLock.WritersGoFirst` | spinlock.c:84-107 | from a writer's announcement until its unlock no step admits a reader |
| `ReaderWriterLock.ReadAlone` | spinlock.c:81-141 | a reader that runs alone gets in if and only if no writer is announced or active; otherwise the try fails and the waiting form starts over, with nothing changed |
| `ReaderWriterLock.WriteAlone` | spinlock.c:109-120 | an announced writer that runs alone gets in if and only if nobody reads or writes; otherwise it starts over, with nothing changed |
| `ReaderWriterLock.TryWriteAlone` | spinlock.c:143-154 | a try to write that runs alone gets in if and only if nobody reads or writes; otherwise it fails, with nothing changed |
| `ReaderWriterLock.OthersAlone` | spinlock.c:96-129 | an announcement, a read unlock and a write unlock that run alone have their effect on exactly that thread |
| `MultiQueue.Queue.FindPlace` | mini_rtos/src/multiqueue.c:189-193 | the walk ends at the last item that stays in front of the new one |
| `MultiQueue.Queue.PushFront` | mini_rtos/src/multiqueue.c:184-188 | the new item becomes the head, links consistent both ways |
| `MultiQueue.Queue.InsertBehind` | mini_rtos/src/multiqueue.c:194-198 | the new item follows the current one, links consistent both ways |
| `MultiQueue.Queue.Append` | mini_rtos/src/multiqueue.c:222-231 | the new item becomes the tail |
| `MultiQueue.Queue.Enqueue` | mini_rtos/src/multiqueue.c:180-234 | on a priority queue priorities descend and the new item stands behind every item of at least its priority and before every other; on a deadline queue the same by ascending deadlines; otherwise it is the last item |
| `MultiQueue.PlaceInIs` | mini_rtos/src/multiqueue.c:189-193 | the walk stops at the stable place |
| `MultiQueue.PlaceKeepsOrder` | mini_rtos/src/multiqueue.c:181-220 | inserting at the stable place keeps a sorted queue sorted |
| `MultiQueue.PlaceIsUnique` | mini_rtos/src/multiqueue.c:181-220 | there is only one stable place |
| `MultiQueue.Queue.Rotate` | mini_rtos/src/multiqueue.c:270-278 | the head moves behind the tail |
| `MultiQueue.Queue.PopFront` | mini_rtos/src/multiqueue.c:282-288 | the head is taken off |
| `MultiQueue.Queue.Dequeue` | mini_rtos/src/multiqueue.c:260-307 | hands out and removes the head; for round robin with several items the second one, and the head moves to the tail; fails exactly on an empty queue |
| `MultiQueue.Queue.Peek` | mini_rtos/src/multiqueue.c:316-325 | the head's data, no change |
| `MultiQueue.Queue.RemoveExpired` | mini_rtos/src/multiqueue.c:440-481 | leaves the items that have not expired, in order, and returns the number removed |
| `MultiQueue.AliveIs` | mini_rtos/src/multiqueue.c:448-475 | what is left are exactly the items with a later deadline |
| `MultiQueue.AliveKeepsOrder` | mini_rtos/src/multiqueue.c:448-475 | a sorted queue stays sorted |
| `MultiQueueSync.StepKeepsInv` | mini_rtos/src/multiqueue.c:144-308 | every step of every enqueuer and dequeuer, also after a failed allocation, keeps the token balance and the list |
| `MultiQueueSync.EveryRunIsBounded` | mini_rtos/src/multiqueue.c:144-308 | in every run free tokens, tokens held and items add up to max_items, the capacity is never exceeded, and the empty-list branch after a successful wait is never taken |
| `MultiQueueSync.EveryRunIsSequential` | mini_rtos/src/multiqueue.c:144-308 | under every interleaving the list is what the sequential queue holds after the operations in mutex order, and every dequeue returns what that queue handed out |
| `MultiQueueSync.EnqueueAlone` | mini_rtos/src/multiqueue.c:144-245 | an enqueue that runs alone with a free slot and memory is done after eight steps: the item is in its place, one token has moved |
| `MultiQueueSync.EnqueueFailsAlone` | mini_rtos/src/multiqueue.c:154-170 | without memory it is done after six steps and nothing has changed |
| `MultiQueueSync.DequeueAlone` | mini_rtos/src/multiqueue.c:248-308 | a dequeue that runs alone with an item posted returns after eight steps what the sequential queue hands out |
| `MultiQueueSync.WaitsForToken` | mini_rtos/src/multiqueue.c:149-152 | without a token a thread waits until its time is up, and nothing changes |
| `Scheduler.KeyOrder` | mini_rtos/src/scheduler.c:25-28 | for ids below 2^24 keys order tasks by priority, then id, and are equal only for equal priority and id |
| `Scheduler.KeyTellsPriorityIff` | mini_rtos/src/scheduler.c:25-28 | keys of one task under different priorities differ if and only if its id has at most 24 bits |
| `Scheduler.RequeueKeyedIff` | mini_rtos/src/scheduler.c:434-451 | taking out one node of a task and putting in another after a change of priority leaves every stored key right if and only if the task had at most one node |
| `Scheduler.InheritKeepsUrgent` | mini_rtos/src/scheduler.c:425-456 | after an inheritance from right keys the first task has maximal priority, whatever nodes are left behind |
| `Scheduler.ReleaseUrgentIff` | mini_rtos/src/scheduler.c:458-483 | after a release from right keys the first task has maximal priority if and only if the task had at most one node, or did not come first, or nobody is more urgent than it is now |
| `Scheduler.Scheduler.FindTask` | mini_rtos/src/scheduler.c:240-242 | as long as the stored keys are right, the lookup finds a node of a task if and only if it is queued, however often |
| `Scheduler.Scheduler.PutIn` | mini_rtos/src/scheduler.c:195-201 | one more node of the task under its key, all other nodes kept in order |
| `Scheduler.Scheduler.AddTask` | mini_rtos/src/scheduler.c:195-201 | the task is queued once more, whether it is queued or not; the stored keys are right exactly if they were |
| `Scheduler.Scheduler.TakeOut` | mini_rtos/src/scheduler.c:231-244 | at most one node of the task is taken out, and one is if the keys are right and there is one |
| `Scheduler.Scheduler.RemoveTask` | mini_rtos/src/scheduler.c:231-244 | with right keys the task is queued once less, and the keys stay right |
| `Scheduler.Scheduler.GetNextTask` | mini_rtos/src/scheduler.c:372-379 | the task of the first node; of maximal priority exactly if the first task is; with right keys it is, and among equals has the largest id |
| `Scheduler.Scheduler.InheritPriority` | mini_rtos/src/scheduler.c:425-456 | the blocker gets the priority of the blocked task, its own is remembered once; with right keys before, they are right after if and only if the blocker had at most one node, and get_next_task is right in any case; nothing changes if it is urgent enough |
| `Scheduler.Scheduler.ReleaseInheritedPriority` | mini_rtos/src/scheduler.c:458-483 | the task gets back the priority from before the first inheritance, with the same condition on the keys and the exact condition for get_next_task to be right |
| `Scheduler.BaseStays` | mini_rtos/src/scheduler.c:425-483 | no run changes the priority a task has by itself; a task that has released has it |
| `Scheduler.QueueStays` | mini_rtos/src/scheduler.c:425-483 | runs of inheritances and releases on queued tasks keep what is queued, and how often |
| `Scheduler.AddsOnceIsCalm` | mini_rtos/src/scheduler.c:195-279 | runs that add no queued task never change the priority of a task with several nodes |
| `Scheduler.Perform` | mini_rtos/src/scheduler.c:195-279 | each call changes priorities and queue as the scheduler as a value does, and keeps right keys right exactly if it disturbs no task with several nodes |
| `Scheduler.PerformAll` | mini_rtos/src/scheduler.c:425-483 | every run does; right keys survive a calm run, and the first call that is not calm breaks them |
| `Scheduler.ReleaseInFront` | mini_rtos/src/scheduler.c:458-483 | in any queue: a task with a second node that came first still comes first after its release, although another task is more urgent |
| `Scheduler.YieldMisleads` | mini_rtos/src/scheduler.c:554-568 | three tasks are created; the one of priority 1 inherits priority 3, yields and releases; a stored key is wrong, and get_next_task returns that task instead of those of priority 2 and 3 |
| `PriorityInheritance.Propagate` | scheduler_features.c:212-227 | the walk ends on every graph, also a cyclic one; if at most the first task had a less urgent lock owner, no task has one afterwards; no task is boosted without need: every choice of priorities, none less urgent than before, that serves all tasks is at least as urgent everywhere |
| `PriorityInheritance.Contend` | scheduler_features.c:153-166 | after the boost the owner is at least as urgent as the new waiter, and the whole graph is well served if and only if no boost was needed, or the owner was marked as blocked, or there was nothing to pass on |
| `PriorityInheritance.BoostStops` | scheduler_features.c:160-165 | a graph in which the boost stops at an owner that is not marked as blocked, and its own lock owner stays less urgent |
| `TokenBucket.UpdateBound` | mini_rtos/src/traffic_control.c:25-33 | a refill adds at most rate * elapsed / 1000 tokens, even if the clock, the product or the sum wraps |
| `TokenBucket.RateBound` | mini_rtos/src/traffic_control.c:25-43 | tokens admitted plus tokens left are bounded over every sequence of calls |
| `TokenBucket.WindowBound` | mini_rtos/src/traffic_control.c:192-197 | whatever came before, the calls within any T milliseconds admit at most bucket_size + token_rate * T / 1000 tokens |
| `TokenBucket.NeverAboveIdeal` | mini_rtos/src/traffic_control.c:25-33 | the refilled bucket never holds more than one computed without overflow |
| `TokenBucket.IdealIff` | mini_rtos/src/traffic_control.c:25-33 | and exactly as much if and only if the bucket is full anyway or neither product nor sum overflows |
| `TokenBucket.FullBucketEmpties` | mini_rtos/src/traffic_control.c:30-31 | a full bucket of the largest size that drops to 0 tokens after one millisecond |
| `TokenBucket.RefillExactIff` | mini_rtos/src/traffic_control.c:28 | one refill is its product divided by 1000 and rounded down if and only if the product fits into 32 bits |
| `TokenBucket.SplitLosesNothingIff` | mini_rtos/src/traffic_control.c:25-33 | splitting an interval into two refills loses nothing if and only if the two remainders add up to less than one token |
| `TokenBucket.LossIs` | mini_rtos/src/traffic_control.c:28 | what one refill falls short of: the remainder of the division, or at least 2^32 thousandths if the product overflows |
| `TokenBucket.RunLoses` | mini_rtos/src/traffic_control.c:25-43 | every run gets exactly rate * time less the losses and what full buckets and overflowing sums cut off |
| `TokenBucket.CutIs` | mini_rtos/src/traffic_control.c:30-31 | nothing is cut off if and only if no refill exceeds the size |
| `TokenBucket.PromisedRateIff` | mini_rtos/src/traffic_control.c:25-43 | every run gets all that its time is worth if and only if no refill exceeds the size and the losses stay below one token |
| `TokenBucket.LossBelowOneIff` | mini_rtos/src/traffic_control.c:25-43 | they do if and only if no product overflows and the dropped remainders add up to less than one token |
| `TokenBucket.CallFollows` | mini_rtos/src/traffic_control.c:25-43 | one call keeps the whole tokens of an exact bucket, with a given carry of dropped remainders, if and only if it is harmless |
| `TokenBucket.FollowsIff` | mini_rtos/src/traffic_control.c:25-43 | every run has the whole tokens of the exact bucket after every call if and only if every call is harmless, with buckets that fill up and without |
| `TokenBucket.SafeSizeIff` | mini_rtos/src/traffic_control.c:30-31 | the sum overflows in no run of a bucket of this size if and only if the largest refill, 4294967, fits on top |
| `TokenBucket.HarmlessWhenSafe` | mini_rtos/src/traffic_control.c:25-43 | for such a size only the product and the remainders can do harm |
| `TokenBucket.Starves` | mini_rtos/src/traffic_control.c:25-43 | a run whose calls come too often for one token each gets what was in the bucket and no more |
| `TokenBucket.Shaper.UpdateShaper` | mini_rtos/src/traffic_control.c:25-33 | afterwards the bucket holds at most its size, and no more than it held and the elapsed time is worth |
| `TokenBucket.Shaper.ConsumeTokens` | mini_rtos/src/traffic_control.c:35-43 | what is granted and what is left were there or have been earned since; refused only if there is less than asked for |
| `TokenBucket.Shaper.CheckRates` | mini_rtos/src/traffic_control.c:192-197 | for every sequence of calls on the object: each answer is true if and only if the bucket, refilled to that time, holds enough; what is granted and left is exactly what was there and the time is worth less losses and cuts; every window grants at most bucket_size + token_rate * T / 1000 tokens |

## Left out

- Allocation failure, except in the lock-free structures and the semaphore protocol; NULL arguments of the hash table, the
  multi-queue and the tree, which return at once.
- RedBlackTree.Tree.Insert: the key comes as a parameter instead of through the tree's key function, and `size` does not
  wrap at 2^32.
- rb_minimum and rb_maximum on an empty subtree, which step through the sentinel's NULL child; rb_clear and the
  traversal helpers.
- Weak memory orders: the transition systems are sequentially consistent. Hazard pointers, reference counts and
  reclamation: nodes are never reused. A dequeued NULL value is kept apart from an empty queue, which the C code is not
  able to do.
- lf_ring, lf_hash and lf_gc_run.
- HashTable.Table.Insert: the load factors are exact fractions instead of floats, sizes do not overflow, the hash
  function is arbitrary; keys are compared as byte strings.
- Kfifo.Fifo.constructor: the buffer of a new ring is zeroed.
- ReaderWriterLock.EveryRunIsExclusive: the inner read loop of spin_lock is merged with its exchange; fewer than 2^32
  threads.
- spin_trylock, raw_spin_is_locked, spin_is_locked, memory barriers and cpu_relax.
- MultiQueue.Queue.Enqueue: the item is made by the caller, the size check against item_size and the statistics are not
  modelled.
- MultiQueueSync.EveryRunIsBounded: the list is a sequence, read in one step and written in another; mqueue_flush,
  mqueue_resize, mqueue_set_type and mqueue_remove_expired, which bypass the semaphores, do not take part.
- Scheduler.Scheduler.PutIn: only the priority tree under SCHED_PRIORITY; the EDF, round-robin and hybrid trees and the
  lookup tables are not modelled.
- Scheduler.Scheduler.GetNextTask: the tree is not empty.
- Scheduler.Scheduler.RemoveTask: with wrong stored keys the model says only that at most one node of the task goes.
- PriorityInheritance.Contend: the wait-for graph is taken as given, since scheduler_features.c never sets blocked_on;
  the wait loop, the hand-over of the mutex and orig_prio are not modelled.
- tc_enqueue_task and tc_dequeue_task, changes of a traffic class while it is in use, statistics.
- The timer wheel, the allocators, file systems, protocols and all other code that only wraps kernel interfaces.
