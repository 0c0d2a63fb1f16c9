# Caffeine's bounded eviction engine, in Dafny

This project models the sequential behaviour of `BoundedLocalCache`, the
engine behind Caffeine's size- and weight-bounded caches. The behaviour is
the one its unit tests fix, and the model proves properties of it. The
engine's parts:

- a backing map from keys to nodes;
- each node's lifecycle, ALIVE to RETIRED to DEAD;
- the access-order deque, a strict LRU order with the least recently used
  entry at the head;
- the striped read buffers, each a ring of slots with a write count, a read
  count and a drain-at-write-count;
- the FIFO write buffer of deferred tasks (add, update, removal);
- the weighted-size counter, with a maximum capped at `MAXIMUM_CAPACITY`;
- the drain status (IDLE, REQUIRED, PROCESSING) and the eviction lock.

The model has four layers:

- `CacheModel` (cache_model.dfy) gives the engine's state as a value and
  every operation as a pure transition function.
- `BoundedCache.BoundedLocalCache` (bounded_local_cache.dfy) is the engine
  as a class whose fields its methods update in place. The read buffers are
  an `array2` and the counters are arrays. Each method is proved to take
  `Snapshot()` exactly where the matching `CacheModel` function does, and to
  keep the invariant `Valid()`.
- `CacheInvariant` (cache_invariant.dfy) states the invariant and proves
  that every transition keeps it:
  - keys map to ALIVE nodes;
  - the order links each node at most once and never a DEAD one;
  - the pending write tasks account for every mapped node not yet linked and
    for every RETIRED node;
  - the counter stays within the maximum between operations.
- `CacheTraces` (cache_traces.dfy) proves what the operations do along the
  traces of the tests. `BoundedLocalCacheTest` (bounded_local_cache_test.dfy)
  states those tests as verified methods on the class, and each method's
  postcondition is what its test asserts.

Supporting modules:

- `NodeStatus` (status.dfy): the entry lifecycle.
- `AccessOrder` (access_order.dfy): LRU operations on sequences of node
  handles.
- `ReadBuffer` (read_buffer.dfy): one read-buffer stripe, with how reads are
  recorded into it and how a drain consumes it.

Design decisions the tests force:

- Nodes live in an arena (`nodes: seq<Node>`) and are referred to by index.
  The tests compare nodes by identity across operations, and an index gives
  the model that identity.
- Replacing a value happens in place on the same node, which stays where the
  access order puts it.
- "Saturating at `MAXIMUM_CAPACITY`" is modelled as it must work for
  `putWeighted_noOverflow` to hold. The effective maximum is the configured
  one capped at `MAXIMUM_CAPACITY`. Eviction then brings the counter back
  within it. The counter is a signed 64-bit `Long`, and every
  update of it is checked to stay in range. An add that merely clamped at the
  cap would leave two entries in that test.
- The constants `READ_BUFFER_THRESHOLD`, the drain budget per stripe, the
  slot count, the number of stripes, `MAXIMUM_CAPACITY` and the weigher's
  largest weight belong to a `Config`. They are bound only by the relations
  the tests rely on: `0 < threshold < drain budget <= slots`, at least one
  stripe, and `MAXIMUM_CAPACITY` plus the largest weight fitting a `Long`.
- The thread's stripe, which the engine derives from a thread hash, is an
  explicit parameter `s`.

Modelling choices no test tells apart from the alternatives:

- A drain runs the write buffer first, in FIFO order, and then every read
  stripe, lowest index first.
- Each add and update task evicts from the head, while the weighted size is
  above the maximum, as part of that task, not once after the whole write
  buffer. Every drain in the tests but one runs a single task, and the one in
  `evict_alreadyRemoved` ends the same either way. Evicting inside each task
  is what keeps the counter within a `Long`: between tasks it stays within
  `MAXIMUM_CAPACITY`, and the one add or reweigh a task makes before it
  evicts still fits (`CacheInvariant.CounterInLongRange`).
- An eviction victim that is already RETIRED is only unlinked. The removal
  task queued for it later kills it and reports it, so the listener hears of
  it once, with cause EXPLICIT, and only when that task runs. The test looks
  at the listener only after `drainBuffers()`, so reporting at `remove` time
  would satisfy it too.
- A replaced value is reported to the listener with cause REPLACED.
  `CacheModel.Overwrite` appends that notification after the write's own
  drain, so it follows any SIZE notification that drain produces.
- A read into a slot that still holds an unread event overwrites it (see
  `ReadBuffer.Record` under "Left out").

## Model

| member | source | states |
|---|---|---|
| NodeStatus.MakeRetired | caffeine/src/test/java/com/github/benmanes/caffeine/cache/BoundedLocalCacheTest.java:126-128 | retiring never makes a node ALIVE and never moves it back; a DEAD node stays DEAD and is not RETIRED |
| NodeStatus.MakeDead | caffeine/src/test/java/com/github/benmanes/caffeine/cache/BoundedLocalCacheTest.java:108-110 | killing leaves the node DEAD, neither ALIVE nor RETIRED, and never moves it back |
| NodeStatus.StatusExclusive | caffeine/src/test/java/com/github/benmanes/caffeine/cache/BoundedLocalCacheTest.java:120-130 | exactly one of isAlive, isRetired and isDead holds; retiring twice is retiring once |
| AccessOrder.Without | caffeine/src/test/java/com/github/benmanes/caffeine/cache/BoundedLocalCacheTest.java:104-110 | unlinking removes exactly that node, keeps the rest without repeats and shortens a linked order by one |
| AccessOrder.MoveToTail | caffeine/src/test/java/com/github/benmanes/caffeine/cache/BoundedLocalCacheTest.java:248-256 | an access keeps the same set of nodes without repeats and puts a linked node last; an unlinked node is ignored |
| AccessOrder.ApplyAccesses | caffeine/src/test/java/com/github/benmanes/caffeine/cache/BoundedLocalCacheTest.java:158-162 | replaying read events keeps the same set of nodes and the length of an order without repeats |
| AccessOrder.Minus | caffeine/src/test/java/com/github/benmanes/caffeine/cache/BoundedLocalCacheTest.java:158-162 | the entries not touched are exactly those of the order outside the touched set, in order and without repeats |
| AccessOrder.ApplyAccessesAppend | caffeine/src/test/java/com/github/benmanes/caffeine/cache/BoundedLocalCacheTest.java:158-162 | replaying one more event is one more access to the tail |
| AccessOrder.AccessesReorder | caffeine/src/test/java/com/github/benmanes/caffeine/cache/BoundedLocalCacheTest.java:144-150 | touching distinct linked entries moves exactly them to the tail in the order touched; the untouched ones keep their relative order at the head |
| AccessOrder.AccessPrefix | caffeine/src/test/java/com/github/benmanes/caffeine/cache/BoundedLocalCacheTest.java:144-150 | touching the first entries in order rotates that prefix to the tail |
| AccessOrder.MoveHeadToTail | caffeine/src/test/java/com/github/benmanes/caffeine/cache/BoundedLocalCacheTest.java:248-256 | accessing the head of two or more entries makes it the tail and the second entry the new head, which differs from it |
| ReadBuffer.SlotOf | caffeine/src/test/java/com/github/benmanes/caffeine/cache/BoundedLocalCacheTest.java:298-311 | a counter addresses a slot inside the ring, the counter itself while below the ring size |
| ReadBuffer.Record | caffeine/src/test/java/com/github/benmanes/caffeine/cache/BoundedLocalCacheTest.java:300-302 | a recorded read fills the slot the write count addresses and no other |
| ReadBuffer.DrainSlots | caffeine/src/test/java/com/github/benmanes/caffeine/cache/BoundedLocalCacheTest.java:313-317 | a stripe drain takes at most its budget of events, advances the read count by the number taken and takes nothing from an empty read position |
| ReadBuffer.DrainSlotsStep | caffeine/src/test/java/com/github/benmanes/caffeine/cache/BoundedLocalCacheTest.java:313-317 | the event at the read position is taken first, then its slot is cleared and the drain goes on from the next one |
| ReadBuffer.CountFull | caffeine/src/test/java/com/github/benmanes/caffeine/cache/BoundedLocalCacheTest.java:304-309 | the number of occupied slots is at most the ring size and zero for an empty stripe |
| ReadBuffer.WindowCount | caffeine/src/test/java/com/github/benmanes/caffeine/cache/BoundedLocalCacheTest.java:304-311 | a stripe holding n pending events, whether or not they wrap round the ring's last slot, has exactly n occupied slots |
| ReadBuffer.SlotOfMod | caffeine/src/test/java/com/github/benmanes/caffeine/cache/BoundedLocalCacheTest.java:298-302 | the slot a counter addresses is the counter modulo the ring size |
| ReadBuffer.WindowAt | caffeine/src/test/java/com/github/benmanes/caffeine/cache/BoundedLocalCacheTest.java:300-302 | the i-th pending event sits i slots past the read position, wrapping round the ring's last slot |
| ReadBuffer.RecordExtendsWindow | caffeine/src/test/java/com/github/benmanes/caffeine/cache/BoundedLocalCacheTest.java:300-302 | while the ring is not full, recording the next read appends its event to the pending ones, in order, also when the pending events wrap round the ring's last slot |
| ReadBuffer.DrainWindow | caffeine/src/test/java/com/github/benmanes/caffeine/cache/BoundedLocalCacheTest.java:313-317 | draining up to a full ring of pending events, wrapped round the ring's end or not, replays exactly them oldest first, advances the read count by their number and leaves every slot empty |
| CacheModel.Initial | caffeine/src/test/java/com/github/benmanes/caffeine/cache/BoundedLocalCacheTest.java:74-77 | a new engine is empty, its stripes empty with zero counters, its maximum the configured one capped at MAXIMUM_CAPACITY |
| CacheModel.EvictHead | caffeine/src/test/java/com/github/benmanes/caffeine/cache/BoundedLocalCacheTest.java:164-168 | evicting removes the head of the order and its weight from the counter and touches neither read side nor write buffer; an ALIVE victim dies, leaves the map and is reported with cause SIZE, any other is only unlinked |
| CacheModel.Evict | caffeine/src/test/java/com/github/benmanes/caffeine/cache/BoundedLocalCacheTest.java:147-153 | eviction takes only from the head, ends within the maximum or empty, never raises the counter, and changes nothing when already within the maximum |
| CacheModel.ApplyTask | caffeine/src/test/java/com/github/benmanes/caffeine/cache/BoundedLocalCacheTest.java:283-285 | a task changes neither read side nor maximum; a task that only runs code records that it ran and does nothing else |
| CacheModel.ApplyTasks | caffeine/src/test/java/com/github/benmanes/caffeine/cache/BoundedLocalCacheTest.java:108-110 | running the queued tasks changes neither read side nor write buffer nor maximum |
| CacheModel.DrainWriteBuffer | caffeine/src/test/java/com/github/benmanes/caffeine/cache/BoundedLocalCacheTest.java:287 | draining leaves the write buffer empty and the read side alone; an empty buffer changes nothing |
| CacheModel.DrainReadBuffer | caffeine/src/test/java/com/github/benmanes/caffeine/cache/BoundedLocalCacheTest.java:313-317 | a stripe drain only reorders the order, records the stripe's write count as its drain count and leaves other stripes alone |
| CacheModel.DrainReadBuffersFrom | caffeine/src/test/java/com/github/benmanes/caffeine/cache/BoundedLocalCacheTest.java:170-172 | draining stripes from s on only reorders the order, sets each of those stripes' drain count and leaves the stripes below s alone |
| CacheModel.DrainBuffers | caffeine/src/test/java/com/github/benmanes/caffeine/cache/BoundedLocalCacheTest.java:108 | drainBuffers empties the write buffer and sets every stripe's drain count to its write count |
| CacheModel.TryToDrainBuffers | caffeine/src/test/java/com/github/benmanes/caffeine/cache/BoundedLocalCacheTest.java:97-108 | with the eviction lock held nothing changes; otherwise the write buffer ends empty and the status IDLE |
| CacheModel.AfterWrite | caffeine/src/test/java/com/github/benmanes/caffeine/cache/BoundedLocalCacheTest.java:283-287 | with the lock held the task is only queued and a drain marked REQUIRED; otherwise it is drained at once and the status ends IDLE |
| CacheModel.Get | caffeine/src/test/java/com/github/benmanes/caffeine/cache/BoundedLocalCacheTest.java:300-302 | get answers the mapped value; an absent key answers nothing and changes nothing |
| CacheModel.Put | caffeine/src/test/java/com/github/benmanes/caffeine/cache/BoundedLocalCacheTest.java:80-82 | put answers the previous value of a present key and nothing for an absent one |
| CacheModel.PutIfAbsent | caffeine/src/test/java/com/github/benmanes/caffeine/cache/BoundedLocalCacheTest.java:211-215 | a present key is only read and its value answered; an absent one is inserted and answers nothing |
| CacheModel.Replace | caffeine/src/test/java/com/github/benmanes/caffeine/cache/BoundedLocalCacheTest.java:229-233 | replace writes and answers the old value only for a present key; an absent key changes nothing |
| CacheModel.ReplaceConditionally | caffeine/src/test/java/com/github/benmanes/caffeine/cache/BoundedLocalCacheTest.java:238-245 | the conditional replace succeeds exactly when the key is present with the expected value; otherwise nothing changes |
| CacheModel.Remove | caffeine/src/test/java/com/github/benmanes/caffeine/cache/BoundedLocalCacheTest.java:104 | remove answers the old value of a present key; an absent key changes nothing |
| CacheInvariant.WeightOfWithout | caffeine/src/test/java/com/github/benmanes/caffeine/cache/BoundedLocalCacheTest.java:104-110 | unlinking a node takes exactly its weight out of the linked weight |
| CacheInvariant.WeightOfApplyAccesses | caffeine/src/test/java/com/github/benmanes/caffeine/cache/BoundedLocalCacheTest.java:158-162 | reordering keeps the linked weight |
| CacheInvariant.WeightOfReweigh | caffeine/src/test/java/com/github/benmanes/caffeine/cache/BoundedLocalCacheTest.java:220-224 | reweighing a linked node changes the linked weight by the difference |
| CacheInvariant.EvictHeadCore | caffeine/src/test/java/com/github/benmanes/caffeine/cache/BoundedLocalCacheTest.java:164-168 | evicting the head keeps the invariant while tasks are pending, and the excess of the counter over the linked weight |
| CacheInvariant.EvictCore | caffeine/src/test/java/com/github/benmanes/caffeine/cache/BoundedLocalCacheTest.java:147-153 | eviction keeps the invariant and ends within the maximum |
| CacheInvariant.ApplyTaskInv | caffeine/src/test/java/com/github/benmanes/caffeine/cache/BoundedLocalCacheTest.java:108-110 | running the oldest pending task keeps the invariant for the rest |
| CacheInvariant.ApplyTasksInv | caffeine/src/test/java/com/github/benmanes/caffeine/cache/BoundedLocalCacheTest.java:108-110 | running all pending tasks keeps the invariant with nothing left owed |
| CacheInvariant.DrainReadBuffersInv | caffeine/src/test/java/com/github/benmanes/caffeine/cache/BoundedLocalCacheTest.java:313-317 | replaying read events keeps the invariant and the counter's excess |
| CacheInvariant.DrainBuffersInv | caffeine/src/test/java/com/github/benmanes/caffeine/cache/BoundedLocalCacheTest.java:172 | drainBuffers keeps the invariant |
| CacheInvariant.TryToDrainBuffersInv | caffeine/src/test/java/com/github/benmanes/caffeine/cache/BoundedLocalCacheTest.java:97-108 | a drain attempt keeps the invariant, with or without the lock |
| CacheInvariant.AfterWriteInv | caffeine/src/test/java/com/github/benmanes/caffeine/cache/BoundedLocalCacheTest.java:284 | queuing an allowed task and trying to drain keeps the invariant |
| CacheInvariant.AfterReadInv | caffeine/src/test/java/com/github/benmanes/caffeine/cache/BoundedLocalCacheTest.java:269-272 | afterRead keeps the invariant |
| CacheInvariant.CounterSetInv | caffeine/src/test/java/com/github/benmanes/caffeine/cache/BoundedLocalCacheTest.java:81 | setting the counter anywhere between the linked weight and the maximum keeps the invariant |
| CacheInvariant.InitialInv | caffeine/src/test/java/com/github/benmanes/caffeine/cache/BoundedLocalCacheTest.java:74-77 | a new engine satisfies the invariant with no excess |
| CacheInvariant.GetInv | caffeine/src/test/java/com/github/benmanes/caffeine/cache/BoundedLocalCacheTest.java:160 | get keeps the invariant |
| CacheInvariant.PutInv | caffeine/src/test/java/com/github/benmanes/caffeine/cache/BoundedLocalCacheTest.java:138 | put keeps the invariant |
| CacheInvariant.InsertInv | caffeine/src/test/java/com/github/benmanes/caffeine/cache/BoundedLocalCacheTest.java:325 | inserting an absent key keeps the invariant |
| CacheInvariant.OverwriteInv | caffeine/src/test/java/com/github/benmanes/caffeine/cache/BoundedLocalCacheTest.java:223 | overwriting a present key keeps the invariant |
| CacheInvariant.PutIfAbsentInv | caffeine/src/test/java/com/github/benmanes/caffeine/cache/BoundedLocalCacheTest.java:214 | putIfAbsent keeps the invariant |
| CacheInvariant.ReplaceInv | caffeine/src/test/java/com/github/benmanes/caffeine/cache/BoundedLocalCacheTest.java:232 | replace keeps the invariant |
| CacheInvariant.ReplaceConditionallyInv | caffeine/src/test/java/com/github/benmanes/caffeine/cache/BoundedLocalCacheTest.java:245 | the conditional replace keeps the invariant |
| CacheInvariant.RemoveInv | caffeine/src/test/java/com/github/benmanes/caffeine/cache/BoundedLocalCacheTest.java:104 | remove keeps the invariant |
| CacheInvariant.NewNodeInv | caffeine/src/test/java/com/github/benmanes/caffeine/cache/BoundedLocalCacheTest.java:263 | creating an unmapped node keeps the invariant |
| CacheInvariant.CounterInLongRange | caffeine/src/test/java/com/github/benmanes/caffeine/cache/BoundedLocalCacheTest.java:80-85 | the counter stays between zero and MAXIMUM_CAPACITY between tasks, and the one add or reweigh a task makes before it evicts still fits a signed 64-bit counter |
| CacheInvariant.DrainedConsistent | caffeine/src/test/java/com/github/benmanes/caffeine/cache/BoundedLocalCacheTest.java:176-178 | with nothing pending the map has as many entries as the order, the order reports exactly the map's keys, every linked node is ALIVE and none is RETIRED |
| CacheInvariant.DrainedKeys | caffeine/src/test/java/com/github/benmanes/caffeine/cache/BoundedLocalCacheTest.java:176-177 | when the linked nodes are the mapped ones, size equals the order's length and the keys along the order are the key set |
| CacheTraces.QuietDrain | caffeine/src/test/java/com/github/benmanes/caffeine/cache/BoundedLocalCacheTest.java:198-205 | with no task queued and no read pending, a drain changes nothing at all |
| CacheTraces.ReadingDrainIsStripe | caffeine/src/test/java/com/github/benmanes/caffeine/cache/BoundedLocalCacheTest.java:313-317 | when only one stripe has pending reads, drainBuffers is the drain of that stripe |
| CacheTraces.DrainReading | caffeine/src/test/java/com/github/benmanes/caffeine/cache/BoundedLocalCacheTest.java:313-317 | draining replays the pending reads against the order and leaves the engine quiet |
| CacheTraces.RecordReading | caffeine/src/test/java/com/github/benmanes/caffeine/cache/BoundedLocalCacheTest.java:300-302 | a recorded read appends its event to the stripe's pending ones and touches nothing else |
| CacheTraces.GetRecorded | caffeine/src/test/java/com/github/benmanes/caffeine/cache/BoundedLocalCacheTest.java:300-311 | a get below the threshold while IDLE is only recorded: its event joins the stripe and the order is untouched |
| CacheTraces.GetAtThreshold | caffeine/src/test/java/com/github/benmanes/caffeine/cache/BoundedLocalCacheTest.java:313 | a get that finds the threshold reached records and then drains |
| CacheTraces.GetDraining | caffeine/src/test/java/com/github/benmanes/caffeine/cache/BoundedLocalCacheTest.java:313-317 | the get at the threshold replays all the stripe's events, its own last, and leaves the engine quiet |
| CacheTraces.AfterReadDrainAt | caffeine/src/test/java/com/github/benmanes/caffeine/cache/BoundedLocalCacheTest.java:267-273 | afterRead drains exactly when the stripe reaches the threshold, and the drain count then becomes the write count after that read; any other read leaves the drain count alone |
| CacheTraces.WriteDrainOnly | caffeine/src/test/java/com/github/benmanes/caffeine/cache/BoundedLocalCacheTest.java:325-327 | with every stripe quiet a drain only runs the write buffer |
| CacheTraces.AfterWriteRuns | caffeine/src/test/java/com/github/benmanes/caffeine/cache/BoundedLocalCacheTest.java:284-287 | on a drained engine afterWrite runs exactly its task and leaves the status IDLE |
| CacheTraces.ProbeRuns | caffeine/src/test/java/com/github/benmanes/caffeine/cache/BoundedLocalCacheTest.java:283-287 | a task handed to afterWrite has run when the call returns, and the write buffer is empty |
| CacheTraces.InsertQuiet | caffeine/src/test/java/com/github/benmanes/caffeine/cache/BoundedLocalCacheTest.java:325-327 | a put of an absent key into a quiet engine links it at once, evicting as needed, and leaves the engine drained and IDLE |
| CacheTraces.MappedLinked | caffeine/src/test/java/com/github/benmanes/caffeine/cache/BoundedLocalCacheTest.java:176-178 | on a drained engine every mapped key's node is linked |
| CacheTraces.HeadMapped | caffeine/src/test/java/com/github/benmanes/caffeine/cache/BoundedLocalCacheTest.java:186 | the head of a drained engine is an ALIVE node its key maps to |
| CacheTraces.OverwriteQuiet | caffeine/src/test/java/com/github/benmanes/caffeine/cache/BoundedLocalCacheTest.java:220-224 | writing a present key with an unchanged weight replaces the value in place, reports the old one as REPLACED, moves the node to the tail and evicts nothing |
| CacheTraces.HeadKey | caffeine/src/test/java/com/github/benmanes/caffeine/cache/BoundedLocalCacheTest.java:186 | the head's key (first.getKey()) is mapped to the head |
| CacheTraces.HeadMovedByAccess | caffeine/src/test/java/com/github/benmanes/caffeine/cache/BoundedLocalCacheTest.java:254-255 | an access to the head makes it the tail and another entry the head |
| CacheTraces.RecencyOnGet | caffeine/src/test/java/com/github/benmanes/caffeine/cache/BoundedLocalCacheTest.java:184-188 | get of the head's key then a drain: the old head is last and a different entry leads |
| CacheTraces.RecencyOnPutIfAbsent | caffeine/src/test/java/com/github/benmanes/caffeine/cache/BoundedLocalCacheTest.java:211-215 | the same for putIfAbsent of the head's key |
| CacheTraces.RecencyOnPut | caffeine/src/test/java/com/github/benmanes/caffeine/cache/BoundedLocalCacheTest.java:220-224 | the same for put of the head's key |
| CacheTraces.RecencyOnReplace | caffeine/src/test/java/com/github/benmanes/caffeine/cache/BoundedLocalCacheTest.java:229-233 | the same for replace of the head's key |
| CacheTraces.RecencyOnReplaceConditionally | caffeine/src/test/java/com/github/benmanes/caffeine/cache/BoundedLocalCacheTest.java:238-245 | the same for the conditional replace with the current value, which succeeds |
| CacheTraces.SettledView | caffeine/src/test/java/com/github/benmanes/caffeine/cache/BoundedLocalCacheTest.java:173-178 | a settled engine's size is the order's length, its key set the order's keys, and the keys along the order the order itself |
| CacheTraces.PutFresh | caffeine/src/test/java/com/github/benmanes/caffeine/cache/BoundedLocalCacheTest.java:137-139 | putting the next fresh key below the maximum links it at the tail and evicts nothing |
| CacheTraces.PutEvicting | caffeine/src/test/java/com/github/benmanes/caffeine/cache/BoundedLocalCacheTest.java:164-168 | putting the next fresh key at the maximum evicts the head: it leaves the map, dies and is reported with cause SIZE |
| CacheTraces.SettledGet | caffeine/src/test/java/com/github/benmanes/caffeine/cache/BoundedLocalCacheTest.java:158-160 | a get of a linked key below the threshold is recorded and nothing else |
| CacheTraces.SettledReorder | caffeine/src/test/java/com/github/benmanes/caffeine/cache/BoundedLocalCacheTest.java:158-162 | draining the reads of the head entries, in order, moves them to the tail |
| CacheTraces.EvictOnce | caffeine/src/test/java/com/github/benmanes/caffeine/cache/BoundedLocalCacheTest.java:164-168 | an eviction that is back within the maximum after the head stops there |
| CacheTraces.EvictSingle | caffeine/src/test/java/com/github/benmanes/caffeine/cache/BoundedLocalCacheTest.java:82-84 | linking an entry behind a single entry of the same weight at the maximum evicts that entry and nothing else |
| CacheTraces.PutPastMaximum | caffeine/src/test/java/com/github/benmanes/caffeine/cache/BoundedLocalCacheTest.java:82-85 | a put with the counter at the maximum evicts the single entry and leaves the counter at the maximum, with no overflow |
| CacheTraces.PutWeightedTrace | caffeine/src/test/java/com/github/benmanes/caffeine/cache/BoundedLocalCacheTest.java:80-85 | two puts with the counter set to MAXIMUM_CAPACITY in between leave one entry and the counter at MAXIMUM_CAPACITY |
| CacheTraces.RetiredVictimDrain | caffeine/src/test/java/com/github/benmanes/caffeine/cache/BoundedLocalCacheTest.java:108-112 | the drain of the add and the removal queued under the lock kills the RETIRED node, keeps the new key and reports one EXPLICIT removal |
| CacheTraces.LockedInsert | caffeine/src/test/java/com/github/benmanes/caffeine/cache/BoundedLocalCacheTest.java:103 | with the lock held a put only maps the key and queues its add |
| CacheTraces.LockedRemove | caffeine/src/test/java/com/github/benmanes/caffeine/cache/BoundedLocalCacheTest.java:104-107 | with the lock held a removal unmaps the key, retires the node and only queues the removal |
| CacheTraces.AlreadyRemovedRemove | caffeine/src/test/java/com/github/benmanes/caffeine/cache/BoundedLocalCacheTest.java:104 | the removal of key 1 answers its old value -1 |
| CacheTraces.AlreadyRemovedDrain | caffeine/src/test/java/com/github/benmanes/caffeine/cache/BoundedLocalCacheTest.java:108-112 | the drain after it kills node 1, keeps key 2 and reports exactly one EXPLICIT removal |
| CacheTraces.PutEvictingNext | caffeine/src/test/java/com/github/benmanes/caffeine/cache/BoundedLocalCacheTest.java:166 | the i-th fresh key of checkEvict evicts the i-th entry of the order it started from |
| CacheTraces.PutFreshNext | caffeine/src/test/java/com/github/benmanes/caffeine/cache/BoundedLocalCacheTest.java:138 | one put of the first loop of evict_lru links key i at the tail |
| CacheTraces.SettledGetNext | caffeine/src/test/java/com/github/benmanes/caffeine/cache/BoundedLocalCacheTest.java:160 | the i-th read of checkReorder is recorded and nothing else |
| CacheTraces.Upto | caffeine/src/test/java/com/github/benmanes/caffeine/cache/BoundedLocalCacheTest.java:137 | the handles 0 to n - 1 in order |
| CacheTraces.From | caffeine/src/test/java/com/github/benmanes/caffeine/cache/BoundedLocalCacheTest.java:147 | the n handles from a on, in order |
| BoundedCache.BoundedLocalCache.constructor | caffeine/src/test/java/com/github/benmanes/caffeine/cache/BoundedLocalCacheTest.java:74-77 | a new cache is the initial engine and satisfies the invariant |
| BoundedCache.BoundedLocalCache.EvictHead | caffeine/src/test/java/com/github/benmanes/caffeine/cache/BoundedLocalCacheTest.java:164-168 | the fields change as CacheModel.EvictHead says |
| BoundedCache.BoundedLocalCache.Evict | caffeine/src/test/java/com/github/benmanes/caffeine/cache/BoundedLocalCacheTest.java:147-153 | the eviction loop changes the fields as CacheModel.Evict says and keeps the invariant |
| BoundedCache.BoundedLocalCache.Link | caffeine/src/test/java/com/github/benmanes/caffeine/cache/BoundedLocalCacheTest.java:327 | linking appends the node and counts its weight |
| BoundedCache.BoundedLocalCache.Reweigh | caffeine/src/test/java/com/github/benmanes/caffeine/cache/BoundedLocalCacheTest.java:223 | reweighing recounts the node and moves it to the tail |
| BoundedCache.BoundedLocalCache.Unlink | caffeine/src/test/java/com/github/benmanes/caffeine/cache/BoundedLocalCacheTest.java:108-112 | a removal task unlinks, uncounts, kills and reports the node |
| BoundedCache.BoundedLocalCache.RunTask | caffeine/src/test/java/com/github/benmanes/caffeine/cache/BoundedLocalCacheTest.java:108 | one task changes the fields as CacheModel.ApplyTask says and keeps the invariant for the rest |
| BoundedCache.BoundedLocalCache.DrainWriteBuffer | caffeine/src/test/java/com/github/benmanes/caffeine/cache/BoundedLocalCacheTest.java:287 | the loop over the taken tasks changes the fields as CacheModel.DrainWriteBuffer says |
| BoundedCache.BoundedLocalCache.DrainStripe | caffeine/src/test/java/com/github/benmanes/caffeine/cache/BoundedLocalCacheTest.java:313-317 | the slot loop clears exactly the slots ReadBuffer.DrainSlots consumes, advances the read count as it says and replays its events on the deque |
| BoundedCache.BoundedLocalCache.DrainReadBuffer | caffeine/src/test/java/com/github/benmanes/caffeine/cache/BoundedLocalCacheTest.java:313-317 | drains one stripe as CacheModel.DrainReadBuffer says |
| BoundedCache.BoundedLocalCache.DrainReadBuffers | caffeine/src/test/java/com/github/benmanes/caffeine/cache/BoundedLocalCacheTest.java:172 | drains every stripe as CacheModel.DrainReadBuffersFrom says |
| BoundedCache.BoundedLocalCache.DrainBuffers | caffeine/src/test/java/com/github/benmanes/caffeine/cache/BoundedLocalCacheTest.java:108 | drainBuffers changes the fields as CacheModel.DrainBuffers says and keeps the invariant |
| BoundedCache.BoundedLocalCache.TryToDrainBuffers | caffeine/src/test/java/com/github/benmanes/caffeine/cache/BoundedLocalCacheTest.java:97-108 | as CacheModel.TryToDrainBuffers |
| BoundedCache.BoundedLocalCache.AfterWrite | caffeine/src/test/java/com/github/benmanes/caffeine/cache/BoundedLocalCacheTest.java:284 | as CacheModel.AfterWrite, keeping the invariant |
| BoundedCache.BoundedLocalCache.RecordRead | caffeine/src/test/java/com/github/benmanes/caffeine/cache/BoundedLocalCacheTest.java:300-302 | records as CacheModel.RecordRead and answers the write count the read saw |
| BoundedCache.BoundedLocalCache.AfterRead | caffeine/src/test/java/com/github/benmanes/caffeine/cache/BoundedLocalCacheTest.java:269-272 | as CacheModel.AfterRead, keeping the invariant |
| BoundedCache.BoundedLocalCache.Get | caffeine/src/test/java/com/github/benmanes/caffeine/cache/BoundedLocalCacheTest.java:160 | as CacheModel.Get |
| BoundedCache.BoundedLocalCache.Insert | caffeine/src/test/java/com/github/benmanes/caffeine/cache/BoundedLocalCacheTest.java:325 | as CacheModel.Insert |
| BoundedCache.BoundedLocalCache.Overwrite | caffeine/src/test/java/com/github/benmanes/caffeine/cache/BoundedLocalCacheTest.java:223 | as CacheModel.Overwrite |
| BoundedCache.BoundedLocalCache.Put | caffeine/src/test/java/com/github/benmanes/caffeine/cache/BoundedLocalCacheTest.java:138 | as CacheModel.Put |
| BoundedCache.BoundedLocalCache.PutIfAbsent | caffeine/src/test/java/com/github/benmanes/caffeine/cache/BoundedLocalCacheTest.java:214 | as CacheModel.PutIfAbsent |
| BoundedCache.BoundedLocalCache.Replace | caffeine/src/test/java/com/github/benmanes/caffeine/cache/BoundedLocalCacheTest.java:232 | as CacheModel.Replace |
| BoundedCache.BoundedLocalCache.ReplaceConditionally | caffeine/src/test/java/com/github/benmanes/caffeine/cache/BoundedLocalCacheTest.java:245 | as CacheModel.ReplaceConditionally |
| BoundedCache.BoundedLocalCache.Remove | caffeine/src/test/java/com/github/benmanes/caffeine/cache/BoundedLocalCacheTest.java:104 | as CacheModel.Remove |
| BoundedCache.BoundedLocalCache.NewNode | caffeine/src/test/java/com/github/benmanes/caffeine/cache/BoundedLocalCacheTest.java:263 | the node factory answers a fresh handle for an ALIVE node with the key, the value and the weigher's weight, leaves the map, the order and every other field alone, and keeps the invariant |
| BoundedCache.BoundedLocalCache.ContainsKey | caffeine/src/test/java/com/github/benmanes/caffeine/cache/BoundedLocalCacheTest.java:106 | containsKey holds exactly for mapped keys |
| BoundedCache.BoundedLocalCache.Size | caffeine/src/test/java/com/github/benmanes/caffeine/cache/BoundedLocalCacheTest.java:84 | size() is the number of mapped keys |
| BoundedCache.BoundedLocalCache.KeySet | caffeine/src/test/java/com/github/benmanes/caffeine/cache/BoundedLocalCacheTest.java:177 | keySet() is the set of mapped keys |
| BoundedCache.BoundedLocalCache.WeightedSize | caffeine/src/test/java/com/github/benmanes/caffeine/cache/BoundedLocalCacheTest.java:85 | weightedSize() is the counter, between zero and the maximum |
| BoundedCache.BoundedLocalCache.EvictionOrder | caffeine/src/test/java/com/github/benmanes/caffeine/cache/BoundedLocalCacheTest.java:173-175 | iterating the deque yields the keys along the order |
| BoundedCache.BoundedLocalCache.PeekFirst | caffeine/src/test/java/com/github/benmanes/caffeine/cache/BoundedLocalCacheTest.java:198 | peek answers the head, or nothing when empty |
| BoundedCache.BoundedLocalCache.PeekLast | caffeine/src/test/java/com/github/benmanes/caffeine/cache/BoundedLocalCacheTest.java:199 | peekLast answers the tail, or nothing when empty |
| BoundedCache.BoundedLocalCache.StatusOf | caffeine/src/test/java/com/github/benmanes/caffeine/cache/BoundedLocalCacheTest.java:122-124 | the node's status |
| BoundedCache.BoundedLocalCache.PendingReads | caffeine/src/test/java/com/github/benmanes/caffeine/cache/BoundedLocalCacheTest.java:304-309 | the slot loop counts exactly the occupied slots of the stripe |
| BoundedCache.BoundedLocalCache.SetWeightedSize | caffeine/src/test/java/com/github/benmanes/caffeine/cache/BoundedLocalCacheTest.java:81 | only the counter changes, and the invariant holds |
| BoundedCache.BoundedLocalCache.SetReadBufferWriteCount | caffeine/src/test/java/com/github/benmanes/caffeine/cache/BoundedLocalCacheTest.java:267 | only that stripe's write count changes, and the invariant holds |
| BoundedCache.BoundedLocalCache.Lock | caffeine/src/test/java/com/github/benmanes/caffeine/cache/BoundedLocalCacheTest.java:97 | only the lock flag is set |
| BoundedCache.BoundedLocalCache.Unlock | caffeine/src/test/java/com/github/benmanes/caffeine/cache/BoundedLocalCacheTest.java:114 | only the lock flag is cleared |
| BoundedLocalCacheTest.PutWeightedNoOverflow | caffeine/src/test/java/com/github/benmanes/caffeine/cache/BoundedLocalCacheTest.java:73-86 | size() is 1 and weightedSize() is MAXIMUM_CAPACITY |
| BoundedLocalCacheTest.EvictAlreadyRemoved | caffeine/src/test/java/com/github/benmanes/caffeine/cache/BoundedLocalCacheTest.java:91-116 | the node is ALIVE, then RETIRED with key 1 gone and -1 answered, then DEAD after the drain and still DEAD when retired; key 2 is present; the listener heard exactly one EXPLICIT removal |
| BoundedLocalCacheTest.CheckContainsInOrder | caffeine/src/test/java/com/github/benmanes/caffeine/cache/BoundedLocalCacheTest.java:170-179 | drains, then reports size, key set and the keys along the order |
| BoundedLocalCacheTest.CheckSettled | caffeine/src/test/java/com/github/benmanes/caffeine/cache/BoundedLocalCacheTest.java:170-179 | on a settled cache the check changes nothing and shows the expected order |
| BoundedLocalCacheTest.CheckReorder | caffeine/src/test/java/com/github/benmanes/caffeine/cache/BoundedLocalCacheTest.java:158-162 | reading the head entries moves them to the tail in the order read, and the view shows it |
| BoundedLocalCacheTest.CheckEvict | caffeine/src/test/java/com/github/benmanes/caffeine/cache/BoundedLocalCacheTest.java:164-168 | each fresh put at the maximum evicts the head; the evicted keys are the first entries of the order, in order |
| BoundedLocalCacheTest.PutAscending | caffeine/src/test/java/com/github/benmanes/caffeine/cache/BoundedLocalCacheTest.java:137-139 | keys 0 to n - 1 put below the maximum are linked in ascending order with nothing evicted |
| BoundedLocalCacheTest.NewTen | caffeine/src/test/java/com/github/benmanes/caffeine/cache/BoundedLocalCacheTest.java:137-141 | a new cache of maximum ten after the first loop holds 0 to 9 in order with nothing evicted |
| BoundedLocalCacheTest.ReorderFirst | caffeine/src/test/java/com/github/benmanes/caffeine/cache/BoundedLocalCacheTest.java:141-144 | shows 0 to 9, then after reading 0, 1, 2 shows 3 to 9, 0, 1, 2 |
| BoundedLocalCacheTest.EvictFirst | caffeine/src/test/java/com/github/benmanes/caffeine/cache/BoundedLocalCacheTest.java:147 | putting 10, 11, 12 evicts 3, 4, 5 and shows 6 to 9, 0, 1, 2, 10, 11, 12 |
| BoundedLocalCacheTest.EvictLruAgain | caffeine/src/test/java/com/github/benmanes/caffeine/cache/BoundedLocalCacheTest.java:150-153 | reading 6, 7, 8 moves them to the tail; putting 13, 14, 15 evicts 9, 0, 1 |
| BoundedLocalCacheTest.EvictLru | caffeine/src/test/java/com/github/benmanes/caffeine/cache/BoundedLocalCacheTest.java:135-156 | all five expected views of evict_lru; the evicted keys are 3, 4, 5, 9, 0, 1 and the eviction count is 6 |
| BoundedLocalCacheTest.PeekHead | caffeine/src/test/java/com/github/benmanes/caffeine/cache/BoundedLocalCacheTest.java:186 | peek and getKey answer the head and its key |
| BoundedLocalCacheTest.PeekEnds | caffeine/src/test/java/com/github/benmanes/caffeine/cache/BoundedLocalCacheTest.java:254-255 | peekFirst and peekLast answer the head and the tail |
| BoundedLocalCacheTest.UpdateRecencyOnGet | caffeine/src/test/java/com/github/benmanes/caffeine/cache/BoundedLocalCacheTest.java:184-188 | after get of the head's key and a drain, the head is another entry and the tail is the old head |
| BoundedLocalCacheTest.UpdateRecencyOnGetQuietly | caffeine/src/test/java/com/github/benmanes/caffeine/cache/BoundedLocalCacheTest.java:193-206 | a drain with nothing recorded leaves head, tail and the stripe's drain counter as they were |
| BoundedLocalCacheTest.UpdateRecencyOnPutIfAbsent | caffeine/src/test/java/com/github/benmanes/caffeine/cache/BoundedLocalCacheTest.java:211-215 | the same for putIfAbsent of the head's key |
| BoundedLocalCacheTest.UpdateRecencyOnPut | caffeine/src/test/java/com/github/benmanes/caffeine/cache/BoundedLocalCacheTest.java:220-224 | the same for put of the head's key |
| BoundedLocalCacheTest.UpdateRecencyOnReplace | caffeine/src/test/java/com/github/benmanes/caffeine/cache/BoundedLocalCacheTest.java:229-233 | the same for replace of the head's key |
| BoundedLocalCacheTest.UpdateRecencyOnReplaceConditionally | caffeine/src/test/java/com/github/benmanes/caffeine/cache/BoundedLocalCacheTest.java:238-246 | the conditional replace with the current value succeeds, and the same holds |
| BoundedLocalCacheTest.ExceedsMaximumBufferSizeOnRead | caffeine/src/test/java/com/github/benmanes/caffeine/cache/BoundedLocalCacheTest.java:261-274 | with the write count at READ_BUFFER_THRESHOLD - 1 the first afterRead leaves the drain counter 0; the second sets it to READ_BUFFER_THRESHOLD + 1 |
| BoundedLocalCacheTest.ExceedsMaximumBufferSizeOnWrite | caffeine/src/test/java/com/github/benmanes/caffeine/cache/BoundedLocalCacheTest.java:279-288 | the task handed to afterWrite ran and the write buffer is empty |
| BoundedLocalCacheTest.SlotsCleared | caffeine/src/test/java/com/github/benmanes/caffeine/cache/BoundedLocalCacheTest.java:315-317 | the slot loop answers true exactly when every slot of the stripe is empty |
| BoundedLocalCacheTest.ReadToThreshold | caffeine/src/test/java/com/github/benmanes/caffeine/cache/BoundedLocalCacheTest.java:300-302 | READ_BUFFER_THRESHOLD reads are each recorded and none drains; the store is unchanged |
| BoundedLocalCacheTest.DrainOnRead | caffeine/src/test/java/com/github/benmanes/caffeine/cache/BoundedLocalCacheTest.java:293-318 | READ_BUFFER_THRESHOLD slots are filled and the write count equals them; after one more read the read count equals the write count and every slot is empty |
| BoundedLocalCacheTest.DrainOnWrite | caffeine/src/test/java/com/github/benmanes/caffeine/cache/BoundedLocalCacheTest.java:323-328 | after one put the write buffer is empty and the deque holds one entry |

`CacheModel.RecordRead`, `AfterRead`, `Insert` and `Overwrite` are the
transitions that the following lemmas specify, and they have no rows of
their own:

- `CacheTraces.RecordReading`: a recorded read.
- `CacheTraces.AfterReadDrainAt`: afterRead's drain at the threshold.
- `CacheTraces.InsertQuiet`: an insert of an absent key.
- `CacheTraces.OverwriteQuiet`: an overwrite of a present key.

The class methods `RecordRead`, `AfterRead`, `Insert` and `Overwrite` are
proved equal to those functions.

## Left out

- Concurrency. Threads, the executor, `Awaits` polling and atomic
  compare-and-swap are not modelled; the model is sequential. The racing
  thread of `evict_alreadyRemoved` is a sequence of calls made while the
  eviction lock is held.
- The eviction lock is a flag. While it is held, a drain attempt is skipped.
  Blocking, queued waiters and interruption are not modelled, so the
  lock-blocking tests at lines 333-390 (`drain_nonblocking`,
  `drain_blocks*`, `checkDrainBlocks`) are not part of this model.
- `clear`, `setCapacity` and `Eviction.coldest` appear only as tasks in those
  lock tests and are not modelled.
- `readBufferIndex()` hashes the current thread to a stripe. The model takes
  the stripe as a parameter instead.
- Statistics are not modelled. The eviction count is the number of SIZE
  notifications (`CacheModel.Evicted`).
- Removal causes COLLECTED and EXPIRED exist in the datatype, but weak
  references and expiry are not modelled, so nothing produces them.
- The builder, TestNG data providers, `@CacheSpec` populations and
  `CacheValidationListener` are not modelled. Each scenario builds its own
  cache:
  - "population FULL, maximum FULL" becomes the precondition
    `CacheTraces.Full`: drained, quiet, IDLE, at least two entries.
  - The dummy node of the buffer tests is made with key 0 and value 0 where
    the test passes nulls.
- The exact values of `READ_BUFFER_THRESHOLD`, `MAXIMUM_CAPACITY`, the slot
  count and the stripe count are not given. The scenarios take them as
  configuration, with only the relations each test needs in its
  preconditions. For example, `evict_lru` needs a threshold of at least 3.
- BoundedLocalCacheTest.DrainOnRead: the test's final loop runs `i` up to
  `readBuffers.length`, the number of stripes, while it indexes the slots of
  one stripe. The model checks every slot of the stripe instead.
- BoundedLocalCacheTest.UpdateRecencyOnPut, BoundedLocalCacheTest.UpdateRecencyOnReplace
  and BoundedLocalCacheTest.UpdateRecencyOnReplaceConditionally require the
  new value to weigh what the old one did, as it does with the tests' default
  weigher. With a heavier value the update could evict, which those tests do
  not consider.
- BoundedCache.BoundedLocalCache.SetWeightedSize accepts only values between
  the weight of the linked entries and the maximum. The test sets the counter
  to MAXIMUM_CAPACITY, which lies in that range at that point.
- The weighted-size counter is described as saturating at MAXIMUM_CAPACITY;
  the model has no arithmetic clamp and keeps it within the cap by eviction,
  for the reason given above.
- ReadBuffer.Record: a read recorded into a slot that still holds an unread
  event overwrites that event, which is then lost to the access order. The
  model does not drop the new event when its slot is occupied. Either way the
  read buffer is best-effort; the tests never record into an occupied slot,
  since a stripe drains at READ_BUFFER_THRESHOLD, which is below the ring size.
- CacheModel.AfterRead and BoundedCache.BoundedLocalCache.AfterRead take no
  boolean argument. Both calls in the test pass `true`, and the model always
  records the read, as those calls expect. What `false` would change is not
  visible in this source and is not modelled.
- The weigher is a total function into the naturals, bounded by the
  configured largest weight; a weigher that throws is not modelled.
