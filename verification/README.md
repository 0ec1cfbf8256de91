# Floem: models and proofs

Floem compiles dataflow programs for a CPU and a network card. This project models the parts of the repository whose
correctness is hardest to see and proves what they promise:

- **The log-structured key-value store** (`apps/memcached_cached`). Items live in fixed-size log segments, are
  reference counted and indexed by a hash table of direct slots and overflow chains. A cleaner copies live items out of
  mostly dead segments through a ring queue; maintenance recycles dead segments. `Store.dfy` follows the C code, with
  its fields updated in place; `LogLayout`, `Segments`, `HashTable`, `CleanupRing` and `References` hold the
  invariants, and `Moving` what cleaning does to the items in the queue. `StoreRuns` specifies the store for its
  clients, as a plain map with handles on items, and `StoreRefines.Run` is the main theorem: for any hash function and
  any sequence of allocations, fills, puts with and without compare-and-set, lookups, reads and unrefs by clients that
  hold items as long as they like, of maintenance and of cleaning, the replies are those of the specification.
  `StoreRuns.CasDecided` is what clients build on: a compare-and-set on a looked-up item succeeds if and only if
  nobody has stored the key meanwhile, provided that nothing was cleaned and the key's bucket is not crowded. `Server`
  chains the operations to whole requests.
- **The multi-producer, multi-consumer ring queue** that `floem/queue.py` emits, blocking and non-blocking operations
  in any mix, one step for each load, compare-and-set and store (`RingProtocol`, `RingFifo`, and the code over arrays
  in `RingCode`); what must happen before an operation may give up, and when one succeeds (`RingProgress`).
- **Join compilation** (`floem/join_handling.py`, `floem/api_handling.py`): the memoised search that decides who owns a
  join's buffer (`FlowCollection`, `JoinAnalysis`), the shares of a join's data that it keeps account of, through any nest
  of joins (`FlowWeight`), an execution semantics of elements against which it is sound (`JoinRuns`) and complete
  (`JoinOwners`: it accepts exactly the graphs in which the join's buffers can have owners at all), the ordering of
  output calls, up to the compilation of all joins of a graph (`CallOrder`, `JoinPlan`, `JoinConflict`), and what that
  order means in runs (`JoinOrder`, `JoinTurns`, `JoinBoth`).
- **Field liveness** (`floem/pipeline_state.py`): the analysis (`Liveness`, `LivenessAnalysis`), and the routes on which a
  field is read in a graph with joins, of which its result speaks (`LivenessRoutes`).
- **The cross-thread port handshake** (`floem/thread_allocation.py`): `PortHandshake`, `PortCode`.
- **Arithmetic kernels**: AES-CBC (`Aes`, `AesCipher`, `AesCode`, with the example of FIPS 197 in `AesAnswer`), Triple-DES
  (`Des`, `DesCode`), the Jenkins hash (`Jenkins`) and the Internet checksum (`Checksum`).

`dafny verify dfyconfig.toml` checks everything.

## How the code is rendered

- A C pointer into the log is `Addr(segment, offset)`; the memory of a segment is forgotten when the segment is handed
  out again, so any use of an old item would be a failed proof. Each function of the store that the elements call is
  one atomic step, those that take a lock as well as `ialloc_alloc` and `ialloc_maintenance`, which take none. `exit` and
  `abort` are outcomes (`SegmentExit`, `Ended`). Whether the header of a segment can be allocated is a parameter,
  `headerOk`. Division ratios are `real`.
- Ghost state of the store: the lists of active and free segments, the queue the ring holds, the index of the table,
  and `held`, the references that callers hold. What `malloc` returns for the table and the cleanup ring is a parameter
  of the constructor, as neither is cleared.
- A thread of the ring or of the handshake is a program counter; an interleaving is a sequence of actions. The
  handshake lets loads, and stores, between two fences happen in any order; stores wait for the tests before them. Whether
  loads do is a parameter.
- A run of an element is a tree of firings (`JoinRuns.Firing`): an element fires all its outputs in the order the
  compiler chose, exactly one, at most one, or any sequence of them. A call into another join either only fills its
  buffer or makes it fire.
- Covers are values: the code never changes one after it has been stored or returned. Building one up by `add` and
  `append` happens in place (`FlowCollection.Collection`).
- AES bytes and DES bytes are `bv8`, DES bits are `bool`, the hash works on numbers below 2^32 with wrap-around written
  out, the checksum on numbers with the bound of its 32-bit accumulator proved.

## Where the code does not do what one would expect

- **Maintenance can lose its place.** If the segment under cleaning dies before the walk has reached its end, and the
  cleanup queue is full when maintenance is called, the segment is recycled and yet remains the segment to go on with.
  `KvStore.Store.Maintenance` proves that the walk stays sound if and only if the state before the call is not
  `Stale`, a condition a caller can evaluate (`IsStale`); everything else holds in any case. `StaleWalk` reaches such a
  state from an empty store, with a queue of one slot and segments that hold one large and one small item: sets of A, B,
  A and C (A large), two calls of maintenance, a set of A, another call of maintenance, and a set of C.
- **Uninitialised memory.** Neither the hash table nor the cleanup ring is cleared. `KvStore.Store.constructor`: the store
  is in order if and only if the memory for both holds no pointer.
- **The filler of a segment has a 16-bit length.** `Segments.FillerFits`: what is left of a segment fits the filler's
  `keylen` if and only if it is less than 65536 bytes larger than a header; allocation requires totals that keep it so.
- **`ialloc_alloc` when nothing is left**: its documentation (`iokvs.h:151-161`) promises that an allocation for cleaning
  gets the reserved segment, and any other one NULL, when no other allocation is possible. But `segment_alloc` ends the
  process first (`ialloc.c:57-61`). `KvStore.Store.IallocAlloc` proves when: if and only if the item does not fit the
  current segment, the free list is empty and all segments have been used (`Exhausted`); and cleaning uses the reserved
  segment if and only if there is a segment left whose header cannot be allocated (`HeaderFails`). So with a segment in
  reserve cleaning gets its item if and only if the state is not `Exhausted`, which a caller can evaluate.
  `LastSegment.Example` reaches, from an empty store, a state in which cleaning ends the process with an empty segment
  in reserve.
- **Several joins can contradict each other.** Each join lists the pairs of outputs it wants in order with the same
  elements, and the orders are computed from all pairs together (`join_handling.py:244-261`). `JoinPlan.Compile` proves
  when that succeeds: if and only if every join is accepted and no element is asked, by all joins together, to fire an
  output before itself. For a single join the second condition always holds (`JoinPlan.SingleJoinAgrees`);
  `JoinConflict.CannotOrder` is a graph with two joins, both accepted, that cannot be compiled.
- **Not every call that completes a join is noticed.** An output that fires the whole join by itself should be called
  before those that fill the element's own buffer (`api_handling.py:200-202`). The flag that tells gets lost in
  elements that may fire nothing, and in either-or elements but for the last output. `JoinTurns.WholeFirstIff`: in all
  runs such calls come first if and only if the element delivers nothing, or each output that can complete the join
  leads without a choice to a node that does. `JoinBoth.BothOrder` is the graph of `floem/test_join_handling.py:551-586`,
  in which all is well; `JoinBoth.ChoiceOrder` is the same graph with an element that may fire nothing, where it is not.
- **`kill_live` uses field paths as regular expressions.** A written path kills exactly itself and its parts if and only
  if it contains no "." (`Liveness.ExactIffNoDot`). For the analysis this means: it never calls too much live, and it is
  right about all join-free graphs that write certain paths if and only if none of these contains a "."
  (`Liveness.ExactIffNoDots`); `Liveness.DotExample` is a graph in which a field that is read is not live. With joins, too,
  it never calls too much live, and it is right if no written path contains a "." (`LivenessAnalysis.Analysis.Analyze`).
- **The reader of a port has no fence between the last test of the flags and the loads of the arguments.**
  `PortHandshake.InOrderIff`: all values come in order if and only if these loads wait for the tests, as they do on x86;
  `PortHandshake.StaleArgument` is a run in which an argument is loaded too early.
- **CBC decryption in place.** Decrypting into the buffer that holds the message chains each block to the one before as it
  has been decrypted. `AesCipher.RightInPlaceIff`: that gives the message for all vectors and all cipher texts of a length
  if and only if this is at most one block, whatever the key; `AesCipher.WrongInPlace` gives a vector for which it does
  not for every longer text, and `AesCipher.OnlyVector` shows that there is at most one for which it does.
- **A target fired again after it was complete** is not reported by `FlowCollection.union` at once; `JoinRuns.AddPieces`
  and `JoinRuns.CalleeFires` show that such a cover stays visible in all nodes above, so that the roots are refused.

## Model

| member | source | states |
|---|---|---|
| LogLayout.HeaderBounds | apps/memcached_cached/ialloc.c:494-507 | Following item sizes from a header only ever lands on headers of items that lie inside the segment, never inside an item. |
| LogLayout.DeadIffAllDead | apps/memcached_cached/ialloc.c:127-134 | The bytes counted as dead reach the size of the stretch exactly when every item in it has reference count 0. |
| LogLayout.ItemDies | apps/memcached_cached/iokvs.h:251-260 | When an item loses its last reference the dead bytes of its segment grow by exactly its size, and nothing else about the layout changes. |
| Segments.FreedIffDead | apps/memcached_cached/ialloc.c:436-472 | In every state that satisfies the log invariant, `freed` never exceeds the offset, and equals the segment size exactly when the segment is full and all its items are dead. |
| Segments.LogItemDies | apps/memcached_cached/ialloc.c:127-134 | Adding a dying item's size to `freed` keeps the invariant of the whole log. |
| Segments.SegAppend | apps/memcached_cached/ialloc.c:231-260 | Appending an item or a filler at the offset keeps the segment tiled and its count of dead bytes right. |
| Segments.FillerFits | apps/memcached_cached/ialloc.c:243-248 | The length of the filler fits its 16-bit field if and only if the rest of the segment is small enough. |
| Segments.LogRecycle | apps/memcached_cached/ialloc.c:448-459 | Moving a segment whose `freed` equals its size to the free list keeps the invariant: no live item is in it. |
| Segments.LinksRecycle | apps/memcached_cached/ialloc.c:448-459 | After the unlinking, both linked lists are the ghost lists without, and with, the recycled segment, whether it was first or in the middle. |
| Segments.WalkSound | apps/memcached_cached/ialloc.c:474-510 | Exactly when the walk still works on a segment of the log after recycling. |
| CleanupRing.RingPush | apps/memcached_cached/ialloc.c:502-505 | Storing into a NULL slot at the tail and advancing it appends to the queue; a NULL slot there means there is room. |
| CleanupRing.RingPop | apps/memcached_cached/ialloc.c:405-410 | Clearing the slot at the head and advancing it removes the oldest entry. |
| CleanupRing.RingEnds | apps/memcached_cached/ialloc.c:405-410 | The slot at the head is NULL exactly for the empty queue, the slot at the tail exactly for a queue that is not full. |
| HashTable.Missed | apps/memcached_cached/hashtable.c:78-92 | A key found neither in the slots nor in the chain of its bucket is not in the table. |
| HashTable.SameKeySameItem | apps/memcached_cached/hashtable.c:121-145 | Two items of the table with the same hash and key are the same item: each key occurs once. |
| HashTable.ReplacedInSlot | apps/memcached_cached/hashtable.c:133-138 | Replacing the item of a direct slot keeps the table invariant and changes the index at that key only. |
| HashTable.ReplacedInChain | apps/memcached_cached/hashtable.c:160-165 | Replacing an item of the overflow chain by relinking its predecessor keeps the chain finite and without repetition, and changes the index at that key only. |
| HashTable.InsertedNew | apps/memcached_cached/hashtable.c:168-175 | Filling a free slot, or pushing the item of the last slot to the head of the chain, adds just the new key. |
| HashTable.DirectIfFew | apps/memcached_cached/hashtable.c:117-175 | As long as no more than five keys share a bucket their items are in its direct slots, however they were put there. |
| References.ReferencedIsLive | apps/memcached_cached/iokvs.h:224-260 | An item that the table, the cleanup queue or a caller refers to has a positive count. |
| References.RefsAfterPut | apps/memcached_cached/hashtable.c:134-137 | After a put every count is again the number of references from the table, the queue and the callers. |
| References.ViewStored | apps/memcached_cached/hashtable.c:104-182 | A put that stores updates the map at the item's key and nowhere else. |
| References.MoveKeepsView | apps/memcached_cached/ialloc.c:535-539 | Replacing an item by a copy of it leaves the map as it was. |
| References.Queued | apps/memcached_cached/ialloc.c:502-505 | Queueing an item with a reference of its own keeps table and reference counts consistent. |
| KvStore.Store.constructor | apps/memcached_cached/ialloc.c:314-337 | The store begins empty, and satisfies all invariants if and only if the memory for table and ring holds no pointer. |
| KvStore.Store.ItemRef | apps/memcached_cached/iokvs.h:224-229 | Adds a reference to an item that has one. |
| KvStore.Store.ItemTryRef | apps/memcached_cached/iokvs.h:235-245 | Adds a reference unless the count is 0, and says which. |
| KvStore.Store.ItemUnref | apps/memcached_cached/iokvs.h:251-260 | Drops a reference and accounts the item as freed exactly when it was the last. |
| KvStore.Store.ChainFind | apps/memcached_cached/hashtable.c:86-92 | The search of the chain ends, and finds the first item with the key together with its predecessor, or none. |
| KvStore.Store.HashtGet | apps/memcached_cached/hashtable.c:67-101 | Returns the table's item for the key, with a reference more, exactly if there is one. |
| KvStore.Store.HashtPut | apps/memcached_cached/hashtable.c:104-182 | Stores the item under its key, taking a reference and dropping the old item's, unless a compare-and-set finds another item or the item is not in a direct slot; then nothing changes at all. |
| KvStore.Store.SegmentAlloc | apps/memcached_cached/ialloc.c:35-108 | Gives a segment that is on no list and holds no item; the process ends exactly when there is none left. |
| KvStore.Store.SegmentItemAllocPointer | apps/memcached_cached/ialloc.c:231-260 | Gives the place at the offset exactly if the item fits; otherwise closes the segment with a filler and counts the rest as freed. |
| KvStore.Store.NextSegment | apps/memcached_cached/ialloc.c:359-369 | The process ends exactly if no segment is left, and the reserved segment is taken exactly if cleaning finds that a header cannot be allocated. |
| KvStore.Store.IallocAlloc | apps/memcached_cached/ialloc.c:339-383 | Gives a blank item of the requested size behind the others of the current segment if it fits there, and at the start of a new segment otherwise, and moves no other item; says exactly when it ends the process, when it refuses, and when it uses up the reserved segment. |
| KvStore.Store.Alloc | apps/memcached_cached/ialloc.c:339-383 | The new item is in no table, is not a live item, and the caller holds its only reference; every live item is untouched; with a segment in reserve, cleaning gets its item exactly if the state is not exhausted. |
| KvStore.Store.CleanupItem | apps/memcached_cached/ialloc.c:392-416 | Takes the oldest entry of the queue unless 32 have been taken for the current request, and replaces a used-up reserved segment. |
| KvStore.Store.CleanItem | apps/memcached_cached/ialloc.c:523-547 | If others than the queue refer to the item and it is its key's item in a direct slot, a copy in the current segment, with the same key and value and no reference but the table's, replaces it in index and slot, and it loses exactly the table's and the queue's reference; otherwise table and slots are unchanged and it loses the queue's. It ends the process exactly if somebody else refers to the item and there is no place for its copy. |
| KvStore.Store.CleanStep | apps/memcached_cached/ialloc.c:523-547 | One round of cleaning handles the oldest item the limit allows, as above, and moves it exactly if it can be moved; with a segment in reserve it ends the process exactly if that item must be moved and the store is exhausted. |
| KvStore.Store.CleanLog | apps/memcached_cached/ialloc.c:512-550 | The oldest items of the queue, all when idle and at most 32 otherwise, are handled: of each key whose item is among them and in a direct slot the table afterwards has a copy, all other keys keep their item; every item loses exactly the references of queue and table, no reference to a copy remains with the cleaner; and a full segment all of whose items were in the queue or unreferenced, and whose items nobody else holds, is wholly freed. The map is unchanged, no item that somebody holds becomes current, and the process ends only for want of segments. |
| Moving.OneMoreHandled | apps/memcached_cached/ialloc.c:523-547 | Handling one more item after others, each key's item is moved exactly if it is among those handled and in a direct slot. |
| Moving.HandledEmpties | apps/memcached_cached/ialloc.c:512-550 | What cleaning is for: segments whose live items have all been handled, and are not held otherwise, have all their bytes freed. |
| KvStore.Store.RecycleSegments | apps/memcached_cached/ialloc.c:436-472 | Exactly the segments that are entirely freed, the current one excepted, leave the log, in order; of the others the candidate is the emptiest one at least 80% freed and not cleaned before. |
| KvStore.Store.WalkSegment | apps/memcached_cached/ialloc.c:494-509 | Walks from header to header and queues exactly the live items on its way, in order, until the segment ends or the queue is full. |
| KvStore.Store.ContinueCleaning | apps/memcached_cached/ialloc.c:474-509 | Over successive calls the walk visits each header of a segment exactly once. |
| KvStore.Store.IsStale | apps/memcached_cached/ialloc.c:474-496 | Evaluates, before the call, the condition under which maintenance loses its place. |
| KvStore.Store.Maintenance | apps/memcached_cached/ialloc.c:424-510 | Keeps the map and all invariants; recycles exactly the entirely freed segments, all of whose items are dead; marks just the segment it begins to clean, touches no item of the current one, and keeps the walk sound if and only if the state was not stale. |
| StaleWalk.Example | apps/memcached_cached/ialloc.c:474-496 | Nine calls of the store's operations lead from an empty store to a valid state that is stale. |
| StaleWalk.LosesItsPlace | apps/memcached_cached/ialloc.c:474-496 | Maintenance in that state leaves a walk that is not sound. |
| StaleWalk.Set | apps/memcached_cached/main_no_steering.py:592-628 | A set changes the current item of its key, keeps all others, and puts the item where it fits. |
| LastSegment.Example | apps/memcached_cached/ialloc.c:57-61 | Four sets and two calls of maintenance lead from an empty store to a state in which cleaning ends the process although a segment is in reserve. |
| Server.Put | apps/memcached_cached/main_no_steering.py:581-628 | Allocating, filling in, storing and releasing an item sets the key to exactly those bytes, whatever else is held; refusals happen only for want of segments or while the reserved segment is in use. |
| Server.Lookup | apps/memcached_cached/main_no_steering.py:210-240 | Returns the bytes last stored for the key, or that there are none. |
| StoreRuns.HandleKeeps | apps/memcached_cached/iokvs.h:224-260 | In every run the specification allows, an item that a client holds keeps its key and value until the client gives it up, across any maintenance and cleaning. |
| StoreRuns.GetFindsLastPut | apps/memcached_cached/hashtable.c:67-101 | A lookup gives an item with exactly the bytes that the last put of the key stored. |
| StoreRuns.GetMisses | apps/memcached_cached/hashtable.c:67-101 | A lookup of a key that has never been put finds nothing. |
| StoreRuns.CasSucceeds | apps/memcached_cached/hashtable.c:121-145 | A compare-and-set on a looked-up item succeeds only if nobody has stored the key since the lookup, although memory is reused. |
| StoreRuns.CasDecided | apps/memcached_cached/hashtable.c:121-148 | While nothing is cleaned and at most five keys share the bucket, a compare-and-set on a looked-up item succeeds if and only if nobody has stored the key since the lookup. |
| StoreRefines.AllocItem | apps/memcached_cached/main_no_steering.py:592-602 | An allocation gives the client a new handle, and is refused only while the reserved segment is in use or when a further header could not be allocated, which the specification counts. |
| StoreRefines.FillItem | apps/memcached_cached/main_no_steering.py:603-614 | Filling in an item changes what is behind its handle and nothing else. |
| StoreRefines.PutItem | apps/memcached_cached/hashtable.c:104-182 | A put makes the item current; a compare-and-set does so only if the given item is what the last put of the key stored, and always then unless cleaning may have moved it or the bucket is crowded. |
| StoreRefines.GetItem | apps/memcached_cached/main_no_steering.py:217-225 | A lookup gives a handle on the current item exactly if there is one. |
| StoreRefines.UnrefItem | apps/memcached_cached/main_no_steering.py:620-628 | Giving up a handle on an item that has been filled in changes nothing behind the others. |
| StoreRefines.MaintainStore | apps/memcached_cached/ialloc.c:424-510 | Maintenance is invisible to the clients. |
| StoreRefines.CleanStore | apps/memcached_cached/ialloc.c:512-550 | So is cleaning, although it moves items that clients hold. |
| StoreRefines.Begins | apps/memcached_cached/ialloc.c:314-337 | A store that has just been set up is the empty map. |
| StoreRefines.Run | apps/memcached_cached/ialloc.c:339-550 | For every hash function and every sequence of operations by clients who hold any number of items, of maintenance and of cleaning, the replies are those of the specification; the run ends early only where the process ends for want of segments, before a stale maintenance, or at a command that the store does not allow. |
| RingProtocol.StepKeeps | floem/queue.py:405-435 | Every step of every thread keeps: one owner per slot, its status in accord with the owner, and each published entry either in one slot or delivered once. |
| RingProtocol.ReleaseKeeps | floem/queue.py:777-788 | Releasing a buffer keeps the same. |
| RingProtocol.NextBalance | floem/queue.py:405-435 | Each action keeps the entries published equal, as a multiset, to those delivered and those waiting in the ring. |
| RingProtocol.Safety | floem/queue.py:405-472 | In every interleaving of any number of producers and consumers, blocking and non-blocking in any mix: at most one thread works on a slot, none on a slot handed out, and no entry is lost, invented or delivered twice. |
| RingProtocol.NotOverwritten | floem/queue.py:777-788 | From its publication until its release no action of any thread changes an entry. |
| RingFifo.AcceptStep | floem/queue.py:537-546 | A non-blocking enqueue that wins the offset takes the next ticket, although offsets are compared only modulo the size. |
| RingFifo.TakeStep | floem/queue.py:653-660 | A non-blocking dequeue that wins the offset holds the oldest ticket, however long ago it read the offset. |
| RingFifo.FifoNext | floem/queue.py:530-547 | Tickets stay consistent under every non-blocking action. |
| RingFifo.RefinesQueue | floem/queue.py:530-547 | Every step appends to a bounded queue, removes its oldest entry, or leaves it unchanged. |
| RingFifo.Bounded | floem/queue.py:530-547 | Accepted and not yet released entries never outnumber the slots. |
| RingFifo.ExactAtRest | floem/queue.py:649-660 | At rest, an enqueue finds its slot free exactly if the queue is not full, a dequeue finds an entry exactly if it is not empty. |
| RingProgress.TryEnqueueEnds | floem/queue.py:530-547 | In every interleaving, a non-blocking enqueue ends by publishing its entry, or it found its slot in use, or another thread moved the offset between its reading and its compare-and-set. |
| RingProgress.TryDequeueEnds | floem/queue.py:649-660 | In every interleaving, a non-blocking dequeue ends by handing out the entry of its slot, or it found none there, or another thread moved the offset meanwhile. |
| RingProgress.EnqueueEnds | floem/queue.py:405-435 | A blocking enqueue ends only by publishing its entry. |
| RingProgress.DequeueEnds | floem/queue.py:464-472 | A blocking dequeue ends only by handing out an entry. |
| RingProgress.RestEnqueue | floem/queue.py:530-547 | From a state at rest, a non-blocking enqueue that runs alone accepts and publishes its entry if and only if the queue is not full. |
| RingProgress.RestDequeue | floem/queue.py:649-660 | From a state at rest, a non-blocking dequeue that runs alone hands out the oldest entry if and only if the queue is not empty. |
| RingProgress.BlockingAlone | floem/queue.py:405-435 | A blocking enqueue that finds its slot free gets on alone, to the published entry. |
| RingProgress.BlockingTakeAlone | floem/queue.py:464-472 | A blocking dequeue that finds its slot full gets on alone, to the entry. |
| RingFifo.Fifo | floem/queue.py:530-547 | In every interleaving of non-blocking operations the k-th successful dequeue returns the entry of the k-th successful enqueue, and buffers handed out keep what was returned. |
| RingCode.CasStatus | floem/queue.py:428-435 | Compare-and-set on a status. |
| RingCode.Ring.EnqueueStep | floem/queue.py:405-435 | The enqueue code over the shared array takes the protocol's step. |
| RingCode.Ring.DequeueStep | floem/queue.py:464-472 | The dequeue code over the shared array takes the protocol's step. |
| RingCode.Ring.Release | floem/queue.py:777-788 | Release takes the protocol's step. |
| RingCode.Interleave | floem/queue.py:530-551 | Executing any schedule on the arrays yields exclusivity, conservation and, without blocking operations, first-in-first-out order. |
| FlowCollection.Collection.Add | floem/api_handling.py:83-129 | Adding a piece in place merges it with the first related piece, and the result with others in turn, or fails on duplicate data, as the recursive definition says; it terminates. |
| FlowCollection.Collection.AddAll | floem/api_handling.py:131-141 | A union adds the pieces one after the other and fails with the first that fails. |
| FlowCollection.Collection.Append | floem/api_handling.py:160-167 | Extends every piece by one part; fails on a complete target. |
| FlowWeight.JoinedWeight | floem/api_handling.py:104-123 | Two pieces merged weigh what they weighed apart, whether the merge extends a part or completes an instance. |
| FlowWeight.AddConserves | floem/api_handling.py:83-129 | An accepted piece raises the weight of the collection by exactly its own, through all merges. |
| FlowWeight.UnionConserves | floem/api_handling.py:131-141 | A union weighs what its operands weigh together. |
| FlowWeight.FullWeighsOne | floem/api_handling.py:169-170 | A union that has become the whole target was put together from exactly all of its data. |
| JoinAnalysis.NewPairs | floem/join_handling.py:80-88 | Lists exactly the pairs of outputs of which one must happen before the other; which these are, `JoinOrder.NothingOrdered` and `JoinOrder.LastOrdered` say. |
| FlowWeight.WrapShares | floem/join_handling.py:7-27 | What a caller gets of what a node delivers: nothing once it is complete, a port's share of it through a join, everything otherwise; and exactly which covers a join refuses. |
| FlowWeight.ArriveShares | floem/join_handling.py:7-48 | A call of the target delivers one port's share of its data, and a call of any other node the share that its cover has. |
| FlowWeight.DominantDeliversAll | floem/join_handling.py:53-92 | With any number of joins, nested in whatever way: a node that fires all its outputs delivers what they deliver together, and a dominant node exactly one whole. |
| JoinAnalysis.Search.DfsCover | floem/join_handling.py:30-51 | Memoised, and with exceptions, it returns what the unmemoised definition says, keeps earlier answers, and lists each node's pairs once. |
| JoinAnalysis.Search.Explore | floem/join_handling.py:53-92 | The loop over the outputs computes the node's cover, or fails as the definition does. |
| JoinAnalysis.Annotate | floem/join_handling.py:95-122 | Succeeds exactly if no root is left with a part of the join's data; then exactly the nodes that the roots reach have been answered, and the dominant and the passing ones are exactly those with a complete and with a partial cover. |
| JoinRuns.AddPieces | floem/api_handling.py:131-141 | If a union is clean, its operands are clean, disjoint, and cover together what it covers. |
| JoinRuns.ArriveShape | floem/join_handling.py:7-51 | A call of the target delivers exactly the port it names; a call of another node delivers what the node's cover does, and nothing if that is complete. |
| JoinRuns.CallSaves | floem/join_handling.py:30-51 | What a call saves at run time is what the search says its output delivers. |
| JoinRuns.LastIsOrdered | floem/api_handling.py:175-202 | The output that delivers the last-declared port is ordered after every other that delivers anything. |
| JoinRuns.Exact | floem/join_handling.py:53-92 | Every firing of a node saves exactly the ports of its cover, each once, the last-declared port last. |
| JoinRuns.CalleeFires | floem/join_handling.py:57-78 | If a cover shows no double firing, neither does that of any node it was computed from. |
| JoinRuns.AcceptedIsSound | floem/join_handling.py:30-137 | For every graph that is accepted and whose other joins deliver all of the target's data or none of it, and for every run: each firing of a dominant node saves each input port of the join exactly once and the last-declared one last, and nothing is saved outside such a firing. |
| JoinRuns.SingleJoin | floem/join_handling.py:95-137 | Graphs with one join are among them. |
| JoinOwners.AcceptedIff | floem/join_handling.py:30-122 | The analysis accepts a join if and only if there is a set of nodes that can own its buffers: in all runs, whatever the order of calls and the choices, each of their firings fills every port once, and nothing is saved outside. |
| JoinOwners.FreeDelivers | floem/join_handling.py:53-92 | In whatever order it calls its outputs, a node saves exactly the ports of its cover, each once. |
| JoinOwners.CoverFits | floem/join_handling.py:53-92 | Given possible owners, every reached node has a cover, which says what all its firings save. |
| JoinOwners.CombineFits | floem/join_handling.py:63-78 | The union of covers that share no port is accepted, and says what both save. |
| CallOrder.Sorter.TopoSort | floem/join_handling.py:144-162 | Appends the port after all that must follow it, or fails only if the pairs have a cycle. |
| CallOrder.OrderCalls | floem/join_handling.py:165-179 | Yields a permutation of the ports that respects every pair, and fails exactly if the relation has a cycle. |
| CallOrder.CycleFree | floem/join_handling.py:165-179 | Pairs that some order respects have no cycle. |
| JoinPlan.NoConflict | floem/join_handling.py:80-88 | The pairs that one join lists for a node with a clean cover never form a cycle. |
| JoinOrder.ReachedClean | floem/join_handling.py:53-92 | No node that an accepted graph reaches fires the target again after it was complete. |
| JoinOrder.FlagMeans | floem/join_handling.py:53-78 | Of a node that fires the whole join or nothing of it, the caller is told that calling it completes the join if and only if a path without choices leads from it to a node that fires the whole join. |
| JoinOrder.NothingOrdered | floem/api_handling.py:200-202 | An output that delivers nothing must come before another if and only if such a path leads from its callee and the other one delivers something. |
| JoinOrder.LastOrdered | floem/api_handling.py:196-198 | An output that delivers the last port must come after all others that deliver something. |
| JoinPlan.AnnotateAll | floem/join_handling.py:244-246 | Annotating the joins one after the other fails exactly if one of them is not accepted, and gathers at every element exactly the pairs of all joins that reach it. |
| JoinPlan.Plan | floem/join_handling.py:165-179 | Sorting the pairs that all joins have listed for an element fails exactly if they contradict each other there, and otherwise gives an order of calls that suits every join. |
| JoinPlan.Compile | floem/join_handling.py:244-261 | For any number of joins: succeeds exactly if every join is accepted and no element is asked by all of them together to fire an output before itself; then every reached element that fires all its outputs calls those from which a path without choices leads to a node that fires the whole join before all that deliver something, and the one that delivers the last port after the others; and the order suits every join, as the soundness theorem assumes. |
| JoinPlan.SingleJoinAgrees | floem/join_handling.py:244-261 | With a single join, compilation succeeds exactly if the join is accepted. |
| JoinPlan.OneJoinAgrees | floem/join_handling.py:80-88 | Where only one join has demands on an element nothing is contradicted, if the others deliver all of its data or none. |
| JoinPlan.PlannedForEach | floem/join_handling.py:258-261 | The orders of a compiled graph are, for each of its joins, the plans that the soundness theorem and the existence of runs rest on. |
| JoinPlan.SomeRun | floem/join_handling.py:165-179 | With these orders every node of an accepted graph that is reached has a run, so the soundness theorem is about something. |
| JoinTurns.NoticedFirst | floem/api_handling.py:200-202 | In every legal firing, a call that saves nothing and from whose callee a path without choices leads to a node that fires the whole join comes before every call that saves something. |
| JoinTurns.WholeFirstIff | floem/api_handling.py:175-202 | In all legal firings of an element the calls that fire the whole join come before those that save something, if and only if it delivers nothing or each output that delivers nothing and can complete the join does so on a path without choices. |
| JoinBoth.BothOrder | floem/test_join_handling.py:551-586 | The graph of the test compiles, with the two forks first and the element that feeds the last port at the end. |
| JoinBoth.ChoiceOrder | floem/join_handling.py:53-78 | With an element that may fire nothing in place of a fork it compiles, and some run fires the whole join too late. |
| JoinConflict.CannotOrder | floem/join_handling.py:244-261 | A graph with two accepted joins in which an element would have to fire each of its two outputs before the other. |
| JoinConflict.Unrelated | floem/join_handling.py:57-78 | Neither of the two joins delivers any of the other's data, so the soundness theorem would apply to both. |
| Liveness.KillLive | floem/pipeline_state.py:359-372 | What stays live is exactly what no written path matches. |
| Liveness.ExactIffNoDot | floem/pipeline_state.py:364-369 | Matching a written path kills exactly the field and its parts, for every field, if and only if the path contains no ".". |
| Liveness.DotKillsOther | floem/pipeline_state.py:364-369 | A field that is killed although it is no part of what was written. |
| Liveness.LiveIffRead | floem/pipeline_state.py:443-470 | Without joins, and if no written path contains a ".", a field is live at a node exactly if some path reads it before it, or what it is part of, is written. |
| Liveness.NeverTooMuch | floem/pipeline_state.py:443-470 | Without joins, whatever the paths, every field that is called live is read on some path before it, or what it is part of, is written. |
| Liveness.ExactIffNoDots | floem/pipeline_state.py:359-372 | The analysis is right about all join-free graphs that write only certain paths if and only if none of these contains a ".". |
| Liveness.DotExample | floem/pipeline_state.py:364-369 | A graph with a field that is read but not called live. |
| LivenessAnalysis.LiveUsed | floem/pipeline_state.py:382-396 | Live fields are used fields, so answering from the memo with nothing when nothing is used loses nothing. |
| LivenessAnalysis.LiveGrows | floem/pipeline_state.py:453-455 | Liveness is monotone in what joins demand of their dominant nodes. |
| LivenessAnalysis.Analysis.PassUp | floem/pipeline_state.py:472-486 | After a join, its demand on every dominant node is met, nothing else is added to the demands, and the change flag is raised exactly when one grew. |
| LivenessAnalysis.Analysis.Visit | floem/pipeline_state.py:378-488 | A visit, memoised or not, returns what the node passes on, given what has been demanded. |
| LivenessAnalysis.Analysis.Pass | floem/pipeline_state.py:490-497 | A pass that begins with settled results raises no change. |
| LivenessAnalysis.AfterPass | floem/pipeline_state.py:490-499 | A pass either uses up some of the finite room in which demands can grow, or ends with results that solve the equations. |
| LivenessAnalysis.Analysis.Analyze | floem/pipeline_state.py:490-499 | Repeating passes until nothing changes terminates, with the least solution of the equations; at every node reached a field is called live only if some route, along outputs that do not feed a join and from owners to their joins, reads it before it is written or killed, and if no written path contains a ".", exactly then. |
| LivenessAnalysis.LeastKept | floem/pipeline_state.py:472-486 | What a visit demands and calls live is in every solution. |
| LivenessAnalysis.SolvedIsExact | floem/pipeline_state.py:443-499 | Without joins the result contains only fields that some path reads before they, or what they are part of, are written, and all of them if no written path contains a ".". |
| LivenessAnalysis.LeastIsExact | floem/pipeline_state.py:443-499 | With joins: the least solution holds only fields that some route reads first, and all of them if no written path has a ".". |
| LivenessAnalysis.RouteIsLive | floem/pipeline_state.py:453-486 | A field that a route reads first is live at its start, also across jumps to joins. |
| LivenessRoutes.LiveHasRoute | floem/pipeline_state.py:453-486 | Under rightful demands each live field is read first on some route. |
| LivenessAnalysis.RightfulMeets | floem/pipeline_state.py:472-486 | The demands that routes justify meet what every join demands. |
| PortHandshake.NextKeeps | floem/thread_allocation.py:335-359 | Every step of the reader and of each writer keeps the accord of flags, arguments and history. |
| PortHandshake.NotOverwritten | floem/thread_allocation.py:401-413 | What a raised flag announces is not touched until the reader clears the flag. |
| PortHandshake.InOrder | floem/thread_allocation.py:335-359 | If the loads of the arguments wait for the flags: in every interleaving the k-th firing gets the k-th value sent to each port, none lost, repeated or torn. |
| PortHandshake.OneFiringEach | floem/thread_allocation.py:335-359 | In any case there is one firing for each round of values. |
| PortHandshake.StaleArgument | floem/thread_allocation.py:344-356 | If they do not wait, a firing can get the value before the one sent. |
| PortHandshake.InOrderIff | floem/thread_allocation.py:344-356 | The values come in order for all buffers and all interleavings if and only if the loads of the arguments wait for the flags. |
| PortHandshake.ReaderMoves | floem/thread_allocation.py:335-359 | With all flags up the reader always has a step to take. |
| PortHandshake.WriterMoves | floem/thread_allocation.py:401-413 | Whatever the other ports' flags are, a waiting writer whose own flag is down goes on to copy, and a copying one can store what is left and raise its flag. |
| PortCode.Buffer.WriterStep | floem/thread_allocation.py:401-413 | The write element over the shared buffer takes the protocol's step. |
| PortCode.Buffer.ReaderStep | floem/thread_allocation.py:335-359 | The read element over the shared buffer takes the protocol's step. |
| Aes.SboxInverse | apps/benchmarks_network_func/aes.c:96-132 | The two substitution tables are inverse to each other. |
| Aes.MixLinear | apps/benchmarks_network_func/aes.c:319-333 | MixColumns is linear over GF(2^8). |
| Aes.InvMixLinear | apps/benchmarks_network_func/aes.c:357-373 | So is its inverse. |
| Aes.MixInverse | apps/benchmarks_network_func/aes.c:319-373 | InvMixColumns undoes MixColumns on every column. |
| AesCipher.RoundsMeet | apps/benchmarks_network_func/aes.c:445-468 | Going down, the inverse cipher passes through the states of the cipher. |
| AesCipher.CipherInverse | apps/benchmarks_network_func/aes.c:420-468 | InvCipher undoes Cipher for every block and every key schedule. |
| AesCipher.CbcRoundTrip | apps/benchmarks_network_func/aes.c:523-603 | CBC decryption undoes CBC encryption for every key schedule, initial vector and message of whole blocks. |
| AesCipher.CbcInParts | apps/benchmarks_network_func/aes.c:537-540 | Encrypting in several calls that go on from the last block is encrypting at once. |
| AesCode.Cipherer.AddRoundKey | apps/benchmarks_network_func/aes.c:256-266 | In place, on the block at an offset. |
| AesCode.Cipherer.ShiftRowsAt | apps/benchmarks_network_func/aes.c:285-311 | The swaps of the C code move byte i from place 5 i modulo 16. |
| AesCode.Cipherer.MixColumnAt | apps/benchmarks_network_func/aes.c:319-333 | The temporaries of the C code compute the mixed column. |
| AesCode.Cipherer.CipherAt | apps/benchmarks_network_func/aes.c:420-443 | The rounds in place compute Cipher on the block and touch nothing else. |
| AesCode.Cipherer.InvCipherAt | apps/benchmarks_network_func/aes.c:445-468 | The inverse rounds in place compute InvCipher on the block and touch nothing else. |
| AesCode.Cipherer.KeyExpansion | apps/benchmarks_network_func/aes.c:183-252 | Computes the key schedule word by word as section 5.2 of FIPS 197 defines it. |
| AesCode.Cipherer.Encrypt | apps/benchmarks_network_func/aes.c:523-566 | Encrypts the buffer in place in CBC mode, with the previous cipher block of the same buffer as vector, and leaves the vector at the last block. |
| AesCode.Cipherer.Decrypt | apps/benchmarks_network_func/aes.c:568-603 | Decrypts block by block in CBC mode into another buffer; into the same buffer, with each block chained to the decrypted one before. |
| AesCipher.SelfDecryptIff | apps/benchmarks_network_func/aes.c:586-595 | One cipher text at a time: decryption in place gives the message exactly if all blocks but the last are their own decryption, in particular for a single block. |
| AesCipher.OnlyVector | apps/benchmarks_network_func/aes.c:586-595 | With more than one block, decryption in place gives the message for at most one vector, which the first block determines. |
| AesCipher.WrongInPlace | apps/benchmarks_network_func/aes.c:586-595 | For every key schedule and every cipher text of more than one block there is a vector for which decryption in place does not give the message. |
| AesCipher.RightInPlaceIff | apps/benchmarks_network_func/aes.c:586-595 | For every key schedule: decryption in place gives the message for all vectors and all cipher texts of a length if and only if this is at most 16 bytes. |
| AesCode.ThereAndBack | apps/benchmarks_network_func/aes.c:523-603 | Encrypting and decrypting with the same key and vector gives the message back. |
| AesAnswer.PublishedAnswer | apps/benchmarks_network_func/aes.c:183-443 | Key schedule and cipher give the published cipher text for the key and block of FIPS 197, appendix B, and the inverse cipher gives the block back. |
| AesAnswer.NextKeyIs | apps/benchmarks_network_func/aes.c:183-252 | The words of each round key, from those of the one before. |
| Des.PermutationsInverse | apps/benchmarks_network_func/tdes.h:21-43 | The initial and the final permutation are inverse to each other. |
| Des.ExpandsGroups | apps/benchmarks_network_func/tdes.h:44-53 | E, in closed form: each group of six bits begins with the last bit of the group before. |
| Des.PermutesBits | apps/benchmarks_network_func/tdes.h:111-120 | P is a permutation: exactly one bit goes to each place. |
| Des.RowOnto | apps/benchmarks_network_func/tdes.h:55-109 | Every row of every S-box takes all its sixteen values. |
| Des.UnroundsRounds | apps/benchmarks_network_func/tdes.c:143-206 | Deciphering runs through the halves of enciphering backwards, for every round function. |
| Des.DesInverse | apps/benchmarks_network_func/tdes.c:74-211 | des_encrypt and des_decrypt undo each other for every round function and key schedule. |
| Des.TripleInverse | apps/benchmarks_network_func/tdes.c:226-262 | So do the three stages. |
| DesCode.PackUnpack | apps/benchmarks_network_func/tdes.c:219-240 | Bytes taken apart into bits and put together again are the same bytes. |
| DesCode.RoundFunction | apps/benchmarks_network_func/tdes.c:86-130 | Expansion, key addition, S-boxes and permutation, loop by loop, compute the cipher function of FIPS 46-3. |
| DesCode.Exchange | apps/benchmarks_network_func/tdes.c:131-135 | The loop that exchanges the halves in place. |
| DesCode.Coder.DesEncrypt | apps/benchmarks_network_func/tdes.c:74-142 | Enciphers one block over the global arrays. |
| DesCode.Coder.DesDecrypt | apps/benchmarks_network_func/tdes.c:143-211 | Deciphers one block over the global arrays. |
| DesCode.Coder.TdesEncrypt | apps/benchmarks_network_func/tdes.c:212-247 | Fills up the last block with zeros and encrypts every block, also when output and input are the same buffer. |
| DesCode.Coder.TdesDecrypt | apps/benchmarks_network_func/tdes.c:248-281 | Decrypts every block. |
| DesCode.BlocksInverse | apps/benchmarks_network_func/tdes.c:212-281 | Triple-DES decryption undoes encryption, and the reverse, for every key triple and every number of blocks. |
| DesCode.MessageInverse | apps/benchmarks_network_func/tdes.c:212-281 | A message of any length comes back filled up with zeros. |
| Jenkins.MixBijective | apps/memcached_cached/jenkins_hash.c:82-90 | mix is a bijection on triples of 32-bit words. |
| Jenkins.RotIs | apps/memcached_cached/jenkins_hash.c:36 | rot moves the low bits up and brings the high bits in below, for every distance. |
| Jenkins.LastWords | apps/memcached_cached/jenkins_hash.c:169-184 | Masking the last words adds exactly the bytes of the key. |
| Jenkins.LastHalves | apps/memcached_cached/jenkins_hash.c:224-253 | Half-words and odd bytes, falling through the cases, add the same. |
| Jenkins.LastBytes | apps/memcached_cached/jenkins_hash.c:279-295 | Single bytes, falling through the cases, add the same. |
| Jenkins.HashWords | apps/memcached_cached/jenkins_hash.c:140-184 | The path for keys aligned to four bytes computes the hash. |
| Jenkins.HashHalves | apps/memcached_cached/jenkins_hash.c:208-253 | The path for keys aligned to two bytes computes the same. |
| Jenkins.HashBytes | apps/memcached_cached/jenkins_hash.c:255-295 | The path for all other keys computes the same. |
| Jenkins.JenkinsHash | apps/memcached_cached/jenkins_hash.c:129-300 | The hash depends on the bytes of the key alone, neither on its address nor on the bytes behind it. |
| Checksum.InChksum | apps/benchmarks_network_func/pkt-utils.c:133-163 | Without exceeding the signed 32-bit accumulator, computes the 16-bit word that, added to the sum of all words, makes it a multiple of 65535; all ones exactly if the sum is zero. |
| Checksum.FoldIs | apps/benchmarks_network_func/pkt-utils.c:158-160 | Two folds leave the ones' complement sum: below 2^16, congruent modulo 65535, and zero only for zero. |
| Checksum.AnswerIs | apps/benchmarks_network_func/pkt-utils.c:158-161 | So the folded and complemented sum is that word. |
| Checksum.FilledChecks | apps/benchmarks_network_func/pkt-utils.c:219-226 | With the checksum in its zeroed field the sum of all words is a positive multiple of 65535, which is what a receiver tests (RFC 1071), and no other word does that, except that all ones and all zeros are the same. |
| Checksum.SwapKeepsSum | apps/benchmarks_network_func/pkt-utils.c:183-198 | Exchanging the IP addresses does not change the checksum. |
| Checksum.SwapIpHeader | apps/benchmarks_network_func/pkt-utils.c:183-198 | Exchanges the two addresses in place and nothing else. |
| Checksum.RecalculateIpChksum | apps/benchmarks_network_func/pkt-utils.c:219-226 | Afterwards the sum of the header's words is a positive multiple of 65535, and only the field has changed. |
| Checksum.KnownHeader | apps/benchmarks_network_func/pkt-utils.c:219-226 | The checksum of a known header is b8 61. |
| Checksum.ByteOrderIndependent | apps/benchmarks_network_func/pkt-utils.c:133-163 | On a processor of the other byte order the same bytes are written to the packet (RFC 1071, section 1). |

## Left out

- Other variants of the store (`apps/memcached_cpu_only`, `apps/memcached_nic_only`, `apps/memcached_split`), segments of the network card, several allocators (`CPU_THREADS` is 1), `mprotect` and printing.
- Interleavings inside one function of the store: buckets and the segment allocator are locked, and each function is taken as one step; worker and maintenance thread interleave between functions.
- Flags, `core_id` and addresses of items and segments that nothing reads.
- `StoreRefines.Run`: clients together hold fewer than 65534 references less the length of the cleanup queue, so that no 16-bit count overflows; one worker allocates and cleans, and fills in an item before it does either again or gives it up, as the elements do.
- `KvStore.Store.Alloc`: totals larger than a segment, which the code asserts away, and items larger than a filler can describe.
- `RingProtocol.Safety`: the compare-and-set of a one-byte status field is on that field alone, while the emitted code compares 32 bits; the optional checksum of an entry; the variants without atomic offsets and those for the network card.
- `RingFifo.Fifo`: order for blocking operations, where tickets one lap apart compete for the same slot; only exclusivity and conservation hold there.
- `JoinRuns.AcceptedIsSound`: graphs in which another join delivers a part of the target's data; for these there is the account of shares in `FlowWeight` only, and no firing semantics in which the last port saved fires the join.
- `JoinOwners.AcceptedIff`: the same graphs are left out; whether a join that is accepted can also be ordered is `JoinPlan.Compile`'s.
- `JoinPlan.AnnotateAll`: the code annotates twice, the first time without ordering calls, so that it lists every pair twice; one pass is modelled.
- Output ports without a connection, whose calls have nowhere to go, and text generation in `codegen.py`.
- `join_collect_killset`, whose branch for either-or elements calls a method that sets do not have: kill sets are given.
- `LivenessAnalysis.Analysis.Visit`: queue nodes, whose liveness is kept per channel; that an owner of a join's buffer lies above the join is assumed, as the join analysis finds it so.
- `Liveness.KillLive`: field paths contain no newline, which the end of a regular expression would treat specially.
- `AesCode.Cipherer.Encrypt`: lengths that are not a multiple of 16; an initial vector inside the output buffer other than the block before; keys of 192 and 256 bits; hardware AES.
- `AesCode.Cipherer.Decrypt`: buffers that overlap without being the same, and an initial vector inside the output buffer other than the block before.
- The DES key schedule, whose `left_shift` reads one byte past its array: the round keys are given.
- `Jenkins.JenkinsHash`: the big-endian path.
- `Checksum.InChksum`: more than 65536 bytes, for which the accumulator could overflow; the UDP and TCP checksums.
