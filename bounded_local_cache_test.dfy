/** The scenarios of the engine's own unit tests, as verified methods on the
    class. Each drives a cache through the calls of one test and its
    postcondition states what that test asserts. The stripe a thread reads
    into is a parameter `s`; the constants READ_BUFFER_THRESHOLD and friends
    are those of the configuration. */
module BoundedLocalCacheTest {
  import opened NodeStatus
  import opened AccessOrder
  import opened ReadBuffer
  import opened CacheModel
  import opened CacheInvariant
  import opened CacheTraces
  import opened BoundedCache

  /** `putWeighted_noOverflow`: with every entry weighing Integer.MAX_VALUE
      and the counter set to MAXIMUM_CAPACITY, a second put evicts the first
      entry and the counter ends at MAXIMUM_CAPACITY instead of overflowing. */
  method PutWeightedNoOverflow(config: Config) returns (size: nat, weighted: int)
    requires ValidConfig(config) && 0 < config.maximumWeight <= config.maximumCapacity
    ensures size == 1 && weighted == config.maximumCapacity
  {
    var cache := new BoundedLocalCache(config, LONG_MAX, (k: Key, v: Value) => config.maximumWeight);
    PutWeightedTrace(config, config.maximumWeight);
    var _ := cache.Put(1, 1);
    cache.SetWeightedSize(config.maximumCapacity as Long);
    var _ := cache.Put(2, 2);
    size := cache.Size();
    weighted := cache.WeightedSize();
  }

  /** `exceedsMaximumBufferSize_onWrite`: a task handed to `afterWrite` runs
      before the call returns and the write buffer is left empty. */
  method ExceedsMaximumBufferSizeOnWrite(config: Config, maximumWeight: nat) returns (ran: seq<nat>, pending: nat)
    requires ValidConfig(config) && 1 <= config.maximumWeight
    ensures ran == [0] && pending == 0
  {
    var cache := new BoundedLocalCache(config, maximumWeight, (k: Key, v: Value) => 1);
    InitialQuiet(config, maximumWeight);
    ghost var st0 := cache.Snapshot();
    var dummy := cache.NewNode(0, 0);
    ghost var st1 := cache.Snapshot();
    QuietAlike(config, st0, st1);
    ProbeAllowed(config, st1, 0);
    cache.AfterWrite(ProbeTask(0));
    ProbeRuns(config, st1, 0);
    ran := cache.ran;
    pending := |cache.writeBuffer|;
  }

  /** `exceedsMaximumBufferSize_onRead`: with the stripe's write count one
      below READ_BUFFER_THRESHOLD, a read does not drain; the next one does,
      and the drain counter becomes READ_BUFFER_THRESHOLD + 1. */
  method ExceedsMaximumBufferSizeOnRead(config: Config, maximumWeight: nat, s: nat)
    returns (drainedFirst: nat, drainedSecond: nat)
    requires ValidConfig(config) && 1 <= config.maximumWeight && s < config.numberOfReadBuffers
    ensures drainedFirst == 0 && drainedSecond == config.readBufferThreshold + 1
  {
    var cache := new BoundedLocalCache(config, maximumWeight, (k: Key, v: Value) => 1);
    var dummy := cache.NewNode(0, 0);
    cache.SetReadBufferWriteCount(s, config.readBufferThreshold - 1);
    ghost var st0 := cache.Snapshot();
    cache.AfterRead(dummy, s);
    AfterReadDrainAt(config, st0, dummy, s);
    drainedFirst := cache.readBufferDrainAtWriteCount[s];
    ghost var st1 := cache.Snapshot();
    cache.AfterRead(dummy, s);
    AfterReadDrainAt(config, st1, dummy, s);
    drainedSecond := cache.readBufferDrainAtWriteCount[s];
  }

  /** `drain_onWrite`: a put on an empty cache drains its own add at once. */
  method DrainOnWrite(config: Config, maximumWeight: nat) returns (pending: nat, linked: nat)
    requires ValidConfig(config) && 1 <= config.maximumWeight
    requires 1 <= maximumWeight && 1 <= config.maximumCapacity
    ensures pending == 0 && linked == 1
  {
    var cache := new BoundedLocalCache(config, maximumWeight, (k: Key, v: Value) => 1);
    InitialQuiet(config, maximumWeight);
    ghost var st0 := cache.Snapshot();
    var _ := cache.Put(1, 1);
    InsertQuiet(config, st0, 1, 1, 1);
    pending := |cache.writeBuffer|;
    linked := |cache.accessOrderDeque|;
  }

  /** `evict_alreadyRemoved`: with a maximum of one, key 1 is put; then, with
      the eviction lock held, key 2 is put and key 1 removed. The removal
      answers the old value, unmaps the key at once and leaves its node
      RETIRED; the drain then kills the node (retiring a DEAD node leaves it
      DEAD), keeps key 2 and reports exactly one removal, with cause EXPLICIT. */
  method EvictAlreadyRemoved(config: Config)
    returns (statusBefore: Status, removed: Option<Value>, containsOld: bool, statusRetired: Status,
             statusAfter: Status, retiredAgain: Status, containsNew: bool, notes: seq<Notification>)
    requires ValidConfig(config) && 1 <= config.maximumWeight && 1 <= config.maximumCapacity
    ensures statusBefore == Alive && removed == Some(-1) && !containsOld && statusRetired == Retired
    ensures statusAfter == Dead && retiredAgain == Dead && containsNew
    ensures notes == [Notification(1, -1, Explicit)]
  {
    var cache := new BoundedLocalCache(config, 1, (k: Key, v: Value) => 1);
    AlreadyRemovedFirst(config);
    AlreadyRemovedSecond(config);
    AlreadyRemovedRemove(config);
    AlreadyRemovedDrain(config);
    var _ := cache.Put(1, -1);
    statusBefore := cache.StatusOf(0);
    cache.Lock();
    var _ := cache.Put(2, -2);
    removed := cache.Remove(1);
    containsOld := cache.ContainsKey(1);
    statusRetired := cache.StatusOf(0);
    cache.DrainBuffers();
    statusAfter := cache.StatusOf(0);
    retiredAgain := MakeRetired(statusAfter);
    containsNew := cache.ContainsKey(2);
    notes := cache.notifications;
    cache.Unlock();
  }

  /** What `checkContainsInOrder` looks at: the size, the key set and the keys
      along the access order. */
  datatype View = View(size: nat, keys: set<Key>, order: seq<Key>)

  /** `checkContainsInOrder(expect)` holds of a view: the size is the number
      of expected keys, the key set holds exactly them and the access order
      lists them, least recently used first. */
  ghost predicate Shows(view: View, expected: seq<Key>)
  {
    view.size == |expected| && view.order == expected && forall k :: k in view.keys <==> k in expected
  }

  /** `checkContainsInOrder`: drains the buffers, then reads the view. */
  method CheckContainsInOrder(cache: BoundedLocalCache) returns (view: View)
    requires cache.Valid()
    modifies cache, cache.readBuffers, cache.readBufferReadCount, cache.readBufferDrainAtWriteCount
    ensures cache.Valid() && cache.Snapshot() == DrainBuffers(cache.config, old(cache.Snapshot()))
    ensures view == View(|cache.Snapshot().data|, cache.Snapshot().data.Keys,
                         KeysOf(cache.Snapshot().nodes, cache.Snapshot().order))
  {
    cache.DrainBuffers();
    var size := cache.Size();
    var keys := cache.KeySet();
    var order := cache.EvictionOrder();
    view := View(size, keys, order);
  }

  /** The view of a settled engine, whose drain changes nothing. */
  method CheckSettled(cache: BoundedLocalCache, ghost order: seq<Id>) returns (view: View)
    requires cache.Valid() && Settled(cache.config, cache.Snapshot(), order)
    modifies cache, cache.readBuffers, cache.readBufferReadCount, cache.readBufferDrainAtWriteCount
    ensures cache.Valid() && cache.Snapshot() == old(cache.Snapshot())
    ensures Shows(view, order)
  {
    QuietDrain(cache.config, cache.Snapshot());
    view := CheckContainsInOrder(cache);
    SettledView(cache.config, cache.Snapshot(), order);
  }

  /** `checkReorder`: reads `keys`, the entries at the head of the order, on
      stripe `s`; the drain moves them to the tail in the order read. */
  method CheckReorder(cache: BoundedLocalCache, s: nat, keys: seq<Id>, ghost order: seq<Id>) returns (view: View)
    requires cache.Valid() && Settled(cache.config, cache.Snapshot(), order) && s < cache.config.numberOfReadBuffers
    requires |keys| <= cache.config.readBufferThreshold && |keys| <= |order| && order[..|keys|] == keys
    modifies cache, cache.readBuffers, cache.readBufferWriteCount, cache.readBufferReadCount
    modifies cache.readBufferDrainAtWriteCount
    ensures cache.Valid() && Settled(cache.config, cache.Snapshot(), order[|keys|..] + keys)
    ensures cache.Snapshot().nodes == old(cache.Snapshot().nodes)
    ensures cache.Snapshot().notifications == old(cache.Snapshot().notifications)
    ensures cache.Snapshot().maximum == old(cache.Snapshot().maximum)
    ensures cache.Snapshot().readCount[s] == old(cache.Snapshot().readCount[s]) + |keys|
    ensures Shows(view, order[|keys|..] + keys)
  {
    ghost var st0 := cache.Snapshot();
    SettledStartsReading(cache.config, st0, s, order);
    var i := 0;
    while i < |keys|
      invariant 0 <= i <= |keys|
      invariant cache.Valid() && SettledReading(cache.config, cache.Snapshot(), s, keys[..i], order)
      invariant cache.Snapshot().nodes == st0.nodes && cache.Snapshot().notifications == st0.notifications
      invariant cache.Snapshot().maximum == st0.maximum && cache.Snapshot().readCount == st0.readCount
    {
      SettledGetNext(cache.config, cache.Snapshot(), s, keys, order, i);
      var _ := cache.Get(keys[i], s);
      i := i + 1;
    }
    assert keys[..i] == keys;
    SettledReorder(cache.config, cache.Snapshot(), s, keys, order);
    view := CheckContainsInOrder(cache);
    SettledView(cache.config, cache.Snapshot(), order[|keys|..] + keys);
  }

  /** `checkEvict`: puts `keys`, fresh keys numbered from the number of nodes
      on, into an engine at its maximum; each evicts the head. */
  method CheckEvict(cache: BoundedLocalCache, keys: seq<Id>, ghost order: seq<Id>) returns (view: View)
    requires cache.Valid() && Settled(cache.config, cache.Snapshot(), order) && 1 <= cache.config.maximumWeight
    requires forall k, v :: cache.weigher(k, v) == 1
    requires 0 < |order| == cache.Snapshot().maximum && |keys| <= |order|
    requires keys == From(|cache.Snapshot().nodes|, |keys|)
    modifies cache, cache.readBuffers, cache.readBufferReadCount, cache.readBufferDrainAtWriteCount
    ensures cache.Valid() && Settled(cache.config, cache.Snapshot(), order[|keys|..] + keys)
    ensures |cache.Snapshot().nodes| == |old(cache.Snapshot().nodes)| + |keys|
    ensures Evicted(cache.Snapshot().notifications) == Evicted(old(cache.Snapshot().notifications)) + order[..|keys|]
    ensures cache.Snapshot().maximum == old(cache.Snapshot().maximum)
    ensures cache.Snapshot().readCount == old(cache.Snapshot().readCount)
    ensures Shows(view, order[|keys|..] + keys)
  {
    ghost var st0 := cache.Snapshot();
    var i := 0;
    while i < |keys|
      invariant 0 <= i <= |keys|
      invariant cache.Valid() && Settled(cache.config, cache.Snapshot(), order[i..] + keys[..i])
      invariant |cache.Snapshot().nodes| == |st0.nodes| + i
      invariant Evicted(cache.Snapshot().notifications) == Evicted(st0.notifications) + order[..i]
      invariant cache.Snapshot().maximum == st0.maximum && cache.Snapshot().readCount == st0.readCount
    {
      PutEvictingNext(cache.config, cache.Snapshot(), order, keys, i, Evicted(st0.notifications));
      var _ := cache.Put(keys[i], keys[i]);
      i := i + 1;
    }
    assert keys[..i] == keys && order[i..] == order[|keys|..];
    view := CheckSettled(cache, order[|keys|..] + keys);
  }

  /** The first loop of `evict_lru`: keys 0 to `n` - 1, each with its
      negation as value, put into an empty cache of unit weights. */
  method PutAscending(cache: BoundedLocalCache, n: nat)
    requires cache.Valid() && Settled(cache.config, cache.Snapshot(), []) && cache.Snapshot().nodes == []
    requires forall k, v :: cache.weigher(k, v) == 1
    requires n <= cache.Snapshot().maximum && 1 <= cache.config.maximumWeight
    modifies cache, cache.readBuffers, cache.readBufferReadCount, cache.readBufferDrainAtWriteCount
    ensures cache.Valid() && Settled(cache.config, cache.Snapshot(), Upto(n)) && |cache.Snapshot().nodes| == n
    ensures cache.Snapshot().notifications == old(cache.Snapshot().notifications)
    ensures cache.Snapshot().maximum == old(cache.Snapshot().maximum)
    ensures cache.Snapshot().readCount == old(cache.Snapshot().readCount)
  {
    ghost var st0 := cache.Snapshot();
    var i := 0;
    while i < n
      invariant 0 <= i <= n && cache.Valid() && Settled(cache.config, cache.Snapshot(), Upto(i))
      invariant |cache.Snapshot().nodes| == i && cache.Snapshot().notifications == st0.notifications
      invariant cache.Snapshot().maximum == st0.maximum && cache.Snapshot().readCount == st0.readCount
    {
      ghost var st := cache.Snapshot();
      var v := -i;
      PutFreshNext(cache.config, st, Upto(i), i, v);
      var _ := cache.Put(i, v);
      assert cache.weigher(i, v) == 1;
      assert cache.Snapshot() == Put(cache.config, st, i, v, 1).0;
      i := i + 1;
    }
  }

  /** The first loop of `evict_lru` on a new cache with a maximum of ten and
      unit weights. */
  method NewTen(config: Config, s: nat) returns (cache: BoundedLocalCache)
    requires ValidConfig(config) && 10 <= config.maximumCapacity && 1 <= config.maximumWeight
    requires s < config.numberOfReadBuffers
    ensures fresh(cache) && fresh(cache.readBuffers) && fresh(cache.readBufferWriteCount)
    ensures fresh(cache.readBufferReadCount) && fresh(cache.readBufferDrainAtWriteCount)
    ensures cache.Valid() && cache.config == config && forall k, v :: cache.weigher(k, v) == 1
    ensures Settled(config, cache.Snapshot(), [0, 1, 2, 3, 4, 5, 6, 7, 8, 9])
    ensures |cache.Snapshot().nodes| == 10 && cache.Snapshot().maximum == 10
    ensures cache.Snapshot().readCount[s] == 0 && Evicted(cache.Snapshot().notifications) == []
  {
    assert Upto(10) == [0, 1, 2, 3, 4, 5, 6, 7, 8, 9];
    cache := new BoundedLocalCache(config, 10, (k: Key, v: Value) => 1);
    InitialQuiet(config, 10);
    PutAscending(cache, 10);
  }

  /** The first check of `evict_lru` and the reads of 0, 1 and 2 on stripe
      `s`, which move them to the tail. */
  method ReorderFirst(cache: BoundedLocalCache, s: nat) returns (filled: View, reordered: View)
    requires cache.Valid() && 3 <= cache.config.readBufferThreshold && s < cache.config.numberOfReadBuffers
    requires Settled(cache.config, cache.Snapshot(), [0, 1, 2, 3, 4, 5, 6, 7, 8, 9])
    requires cache.Snapshot().readCount[s] == 0
    modifies cache, cache.readBuffers, cache.readBufferWriteCount, cache.readBufferReadCount
    modifies cache.readBufferDrainAtWriteCount
    ensures cache.Valid() && Settled(cache.config, cache.Snapshot(), [3, 4, 5, 6, 7, 8, 9, 0, 1, 2])
    ensures cache.Snapshot().nodes == old(cache.Snapshot().nodes)
    ensures cache.Snapshot().maximum == old(cache.Snapshot().maximum)
    ensures cache.Snapshot().notifications == old(cache.Snapshot().notifications)
    ensures cache.Snapshot().readCount[s] == 3
    ensures Shows(filled, [0, 1, 2, 3, 4, 5, 6, 7, 8, 9])
    ensures Shows(reordered, [3, 4, 5, 6, 7, 8, 9, 0, 1, 2])
  {
    ghost var o1 := [0, 1, 2, 3, 4, 5, 6, 7, 8, 9];
    assert o1[3..] + [0, 1, 2] == [3, 4, 5, 6, 7, 8, 9, 0, 1, 2] && o1[..3] == [0, 1, 2];
    filled := CheckSettled(cache, o1);
    reordered := CheckReorder(cache, s, [0, 1, 2], o1);
  }

  /** Putting 10, 11 and 12 evicts 3, 4 and 5. */
  method EvictFirst(cache: BoundedLocalCache, s: nat) returns (evicted: View)
    requires cache.Valid() && (forall k, v :: cache.weigher(k, v) == 1) && 1 <= cache.config.maximumWeight
    requires s < cache.config.numberOfReadBuffers
    requires Settled(cache.config, cache.Snapshot(), [3, 4, 5, 6, 7, 8, 9, 0, 1, 2])
    requires |cache.Snapshot().nodes| == 10 && cache.Snapshot().maximum == 10
    modifies cache, cache.readBuffers, cache.readBufferReadCount, cache.readBufferDrainAtWriteCount
    ensures cache.Valid() && Settled(cache.config, cache.Snapshot(), [6, 7, 8, 9, 0, 1, 2, 10, 11, 12])
    ensures |cache.Snapshot().nodes| == 13 && cache.Snapshot().maximum == 10
    ensures cache.Snapshot().readCount[s] == old(cache.Snapshot().readCount[s])
    ensures Evicted(cache.Snapshot().notifications) == Evicted(old(cache.Snapshot().notifications)) + [3, 4, 5]
    ensures Shows(evicted, [6, 7, 8, 9, 0, 1, 2, 10, 11, 12])
  {
    ghost var o2 := [3, 4, 5, 6, 7, 8, 9, 0, 1, 2];
    assert o2[3..] + [10, 11, 12] == [6, 7, 8, 9, 0, 1, 2, 10, 11, 12] && o2[..3] == [3, 4, 5]
      && From(10, 3) == [10, 11, 12];
    evicted := CheckEvict(cache, [10, 11, 12], o2);
  }

  /** The second half of `evict_lru`: 6, 7 and 8 are read on stripe `s` and
      move to the tail; putting 13, 14 and 15 then evicts 9, 0 and 1. */
  method EvictLruAgain(cache: BoundedLocalCache, s: nat) returns (reorderedAgain: View, evictedAgain: View)
    requires cache.Valid() && (forall k, v :: cache.weigher(k, v) == 1) && 1 <= cache.config.maximumWeight
    requires 3 <= cache.config.readBufferThreshold && s < cache.config.numberOfReadBuffers
    requires Settled(cache.config, cache.Snapshot(), [6, 7, 8, 9, 0, 1, 2, 10, 11, 12])
    requires |cache.Snapshot().nodes| == 13 && cache.Snapshot().maximum == 10
    modifies cache, cache.readBuffers, cache.readBufferWriteCount, cache.readBufferReadCount
    modifies cache.readBufferDrainAtWriteCount
    ensures cache.Valid()
    ensures Evicted(cache.Snapshot().notifications) == Evicted(old(cache.Snapshot().notifications)) + [9, 0, 1]
    ensures Shows(reorderedAgain, [9, 0, 1, 2, 10, 11, 12, 6, 7, 8])
    ensures Shows(evictedAgain, [2, 10, 11, 12, 6, 7, 8, 13, 14, 15])
  {
    ghost var o3 := [6, 7, 8, 9, 0, 1, 2, 10, 11, 12];
    ghost var o4 := [9, 0, 1, 2, 10, 11, 12, 6, 7, 8];
    assert o3[3..] + [6, 7, 8] == o4 && o4[3..] + [13, 14, 15] == [2, 10, 11, 12, 6, 7, 8, 13, 14, 15]
      && o3[..3] == [6, 7, 8] && o4[..3] == [9, 0, 1] && From(13, 3) == [13, 14, 15];
    reorderedAgain := CheckReorder(cache, s, [6, 7, 8], o3);
    evictedAgain := CheckEvict(cache, [13, 14, 15], o4);
  }

  /** `evict_lru`: ten entries of weight one in a cache with a maximum of ten,
      read on stripe `s`. Reads move entries to the tail in the order read,
      each put past the maximum evicts the least recently used entry, and six
      entries, 3, 4, 5, 9, 0 and 1, are evicted in all. */
  method EvictLru(config: Config, s: nat)
    returns (filled: View, reordered: View, evicted: View, reorderedAgain: View, evictedAgain: View,
             evictedKeys: seq<Key>, evictionCount: nat)
    requires ValidConfig(config) && 10 <= config.maximumCapacity && 1 <= config.maximumWeight
    requires 3 <= config.readBufferThreshold && s < config.numberOfReadBuffers
    ensures Shows(filled, [0, 1, 2, 3, 4, 5, 6, 7, 8, 9])
    ensures Shows(reordered, [3, 4, 5, 6, 7, 8, 9, 0, 1, 2])
    ensures Shows(evicted, [6, 7, 8, 9, 0, 1, 2, 10, 11, 12])
    ensures Shows(reorderedAgain, [9, 0, 1, 2, 10, 11, 12, 6, 7, 8])
    ensures Shows(evictedAgain, [2, 10, 11, 12, 6, 7, 8, 13, 14, 15])
    ensures evictedKeys == [3, 4, 5, 9, 0, 1] && evictionCount == 6
  {
    assert [] + [3, 4, 5] + [9, 0, 1] == [3, 4, 5, 9, 0, 1];
    var cache := NewTen(config, s);
    filled, reordered := ReorderFirst(cache, s);
    evicted := EvictFirst(cache, s);
    reorderedAgain, evictedAgain := EvictLruAgain(cache, s);
    evictedKeys := Evicted(cache.notifications);
    evictionCount := |evictedKeys|;
  }

  // ---------------------------------------------------------------------------
  // updateRecency_*: on a full, drained engine an operation on the head's key
  // followed by a drain moves that entry from the head to the tail.

  /** The head of the order and the key of its entry, read as the tests do
      through `peek` and `getKey`. */
  method PeekHead(cache: BoundedLocalCache) returns (first: Id, key: Key)
    requires cache.Valid() && CacheTraces.Full(cache.config, cache.Snapshot())
    ensures first == cache.Snapshot().order[0] && key == HeadKey(cache.config, cache.Snapshot())
  {
    var head := cache.PeekFirst();
    first := head.value;
    ghost var k := HeadKey(cache.config, cache.Snapshot());
    key := cache.nodes[first].key;
  }

  /** The head and the tail after the operation and the drain. */
  method PeekEnds(cache: BoundedLocalCache) returns (firstAfter: Id, lastAfter: Id)
    requires cache.Valid() && |cache.Snapshot().order| > 0
    ensures firstAfter == cache.Snapshot().order[0]
    ensures lastAfter == cache.Snapshot().order[|cache.Snapshot().order| - 1]
  {
    var head := cache.PeekFirst();
    var tail := cache.PeekLast();
    firstAfter := head.value;
    lastAfter := tail.value;
  }

  /** `updateRecency_onGet`. */
  method UpdateRecencyOnGet(cache: BoundedLocalCache, s: nat) returns (first: Id, firstAfter: Id, lastAfter: Id)
    requires cache.Valid() && CacheTraces.Full(cache.config, cache.Snapshot()) && s < cache.config.numberOfReadBuffers
    modifies cache, cache.readBuffers, cache.readBufferWriteCount, cache.readBufferReadCount, cache.readBufferDrainAtWriteCount
    ensures cache.Valid() && firstAfter != first && lastAfter == first
  {
    var key;
    first, key := PeekHead(cache);
    RecencyOnGet(cache.config, cache.Snapshot(), s);
    var _ := cache.Get(key, s);
    cache.DrainBuffers();
    firstAfter, lastAfter := PeekEnds(cache);
  }

  /** `updateRecency_onPutIfAbsent`: the key is present, so this is a read. */
  method UpdateRecencyOnPutIfAbsent(cache: BoundedLocalCache, s: nat) returns (first: Id, firstAfter: Id, lastAfter: Id)
    requires cache.Valid() && CacheTraces.Full(cache.config, cache.Snapshot()) && s < cache.config.numberOfReadBuffers
    modifies cache, cache.readBuffers, cache.readBufferWriteCount, cache.readBufferReadCount, cache.readBufferDrainAtWriteCount
    ensures cache.Valid() && firstAfter != first && lastAfter == first
  {
    var key;
    first, key := PeekHead(cache);
    RecencyOnPutIfAbsent(cache.config, cache.Snapshot(), key, cache.weigher(key, key), s);
    var _ := cache.PutIfAbsent(key, key, s);
    cache.DrainBuffers();
    firstAfter, lastAfter := PeekEnds(cache);
  }

  /** `updateRecency_onPut`: the new value weighs what the old one did. */
  method UpdateRecencyOnPut(cache: BoundedLocalCache) returns (first: Id, firstAfter: Id, lastAfter: Id)
    requires cache.Valid() && CacheTraces.Full(cache.config, cache.Snapshot())
    requires var st := cache.Snapshot(); var k := HeadKey(cache.config, st);
      cache.weigher(k, k) == st.nodes[st.order[0]].weight
    modifies cache, cache.readBuffers, cache.readBufferReadCount, cache.readBufferDrainAtWriteCount
    ensures cache.Valid() && firstAfter != first && lastAfter == first
  {
    var key;
    first, key := PeekHead(cache);
    RecencyOnPut(cache.config, cache.Snapshot(), key);
    var _ := cache.Put(key, key);
    cache.DrainBuffers();
    firstAfter, lastAfter := PeekEnds(cache);
  }

  /** `updateRecency_onReplace`: the new value weighs what the old one did. */
  method UpdateRecencyOnReplace(cache: BoundedLocalCache) returns (first: Id, firstAfter: Id, lastAfter: Id)
    requires cache.Valid() && CacheTraces.Full(cache.config, cache.Snapshot())
    requires var st := cache.Snapshot(); var k := HeadKey(cache.config, st);
      cache.weigher(k, k) == st.nodes[st.order[0]].weight
    modifies cache, cache.readBuffers, cache.readBufferReadCount, cache.readBufferDrainAtWriteCount
    ensures cache.Valid() && firstAfter != first && lastAfter == first
  {
    var key;
    first, key := PeekHead(cache);
    RecencyOnReplace(cache.config, cache.Snapshot(), key);
    var _ := cache.Replace(key, key);
    cache.DrainBuffers();
    firstAfter, lastAfter := PeekEnds(cache);
  }

  /** `updateRecency_onReplaceConditionally`: the current value replaced by
      itself, which succeeds. */
  method UpdateRecencyOnReplaceConditionally(cache: BoundedLocalCache)
    returns (first: Id, replaced: bool, firstAfter: Id, lastAfter: Id)
    requires cache.Valid() && CacheTraces.Full(cache.config, cache.Snapshot())
    requires var st := cache.Snapshot(); var k := HeadKey(cache.config, st); var n := st.nodes[st.order[0]];
      cache.weigher(k, n.value) == n.weight
    modifies cache, cache.readBuffers, cache.readBufferReadCount, cache.readBufferDrainAtWriteCount
    ensures cache.Valid() && replaced && firstAfter != first && lastAfter == first
  {
    var key;
    first, key := PeekHead(cache);
    var value := cache.nodes[first].value;
    RecencyOnReplaceConditionally(cache.config, cache.Snapshot());
    replaced := cache.ReplaceConditionally(key, value, value);
    cache.DrainBuffers();
    firstAfter, lastAfter := PeekEnds(cache);
  }

  /** `updateRecency_onGetQuietly`: with nothing recorded, a drain leaves the
      head, the tail and the stripe's drain counter as they were. */
  method UpdateRecencyOnGetQuietly(cache: BoundedLocalCache, s: nat)
    returns (first: Id, last: Id, drained: nat, firstAfter: Id, lastAfter: Id, drainedAfter: nat)
    requires cache.Valid() && CacheTraces.Full(cache.config, cache.Snapshot()) && s < cache.config.numberOfReadBuffers
    modifies cache, cache.readBuffers, cache.readBufferReadCount, cache.readBufferDrainAtWriteCount
    ensures cache.Valid() && firstAfter == first && lastAfter == last && drainedAfter == drained
  {
    first, last := PeekEnds(cache);
    drained := cache.readBufferDrainAtWriteCount[s];
    QuietDrain(cache.config, cache.Snapshot());
    cache.DrainBuffers();
    firstAfter, lastAfter := PeekEnds(cache);
    drainedAfter := cache.readBufferDrainAtWriteCount[s];
  }

  /** Whether every slot of stripe `s` is empty, read slot by slot. */
  method SlotsCleared(cache: BoundedLocalCache, s: nat) returns (cleared: bool)
    requires cache.Valid() && s < cache.config.numberOfReadBuffers
    ensures cleared <==> AllEmpty(cache.Snapshot().readBuffers[s])
  {
    ghost var row := cache.Snapshot().readBuffers[s];
    cleared := true;
    var j := 0;
    while j < cache.readBuffers.Length1
      invariant 0 <= j <= cache.readBuffers.Length1 == |row|
      invariant cleared <==> forall i :: 0 <= i < j ==> row[i] == Empty
    {
      assert row[j] == cache.Row(s)[j] == cache.readBuffers[s, j];
      if cache.readBuffers[s, j] != Empty {
        cleared := false;
      }
      j := j + 1;
    }
  }

  /** The READ_BUFFER_THRESHOLD reads of `drain_onRead`: each is recorded in
      stripe `s` and none drains. */
  method ReadToThreshold(cache: BoundedLocalCache, s: nat, k: Key) returns (ghost evs: seq<Id>)
    requires cache.Valid() && Reading(cache.config, cache.Snapshot(), s, [])
    requires cache.Snapshot().drainStatus == Idle && k in cache.Snapshot().data
    modifies cache, cache.readBuffers, cache.readBufferWriteCount, cache.readBufferReadCount, cache.readBufferDrainAtWriteCount
    ensures cache.Valid() && Reading(cache.config, cache.Snapshot(), s, evs)
    ensures |evs| == cache.config.readBufferThreshold && cache.Snapshot().drainStatus == Idle
    ensures SameStore(cache.Snapshot(), old(cache.Snapshot()))
    ensures cache.Snapshot().readCount == old(cache.Snapshot()).readCount
  {
    evs := [];
    var i := 0;
    while i < cache.config.readBufferThreshold
      invariant 0 <= i <= cache.config.readBufferThreshold && |evs| == i
      invariant cache.Valid() && Reading(cache.config, cache.Snapshot(), s, evs)
      invariant cache.Snapshot().drainStatus == Idle
      invariant SameStore(cache.Snapshot(), old(cache.Snapshot()))
      invariant cache.Snapshot().readCount == old(cache.Snapshot()).readCount
    {
      ghost var st := cache.Snapshot();
      GetRecorded(cache.config, st, s, evs, k);
      var _ := cache.Get(k, s);
      evs := evs + [st.data[k]];
      i := i + 1;
    }
  }

  /** `drain_onRead`: READ_BUFFER_THRESHOLD reads of one key leave that many
      events pending in the stripe and its write count equal to them; the
      next read drains the stripe: the read count catches up with the write
      count and every slot is empty. */
  method DrainOnRead(cache: BoundedLocalCache, s: nat, k: Key)
    returns (pending: nat, written: nat, readCount: nat, writeCount: nat, cleared: bool)
    requires cache.Valid() && Drained(cache.config, cache.Snapshot()) && Quiet(cache.config, cache.Snapshot())
    requires cache.Snapshot().drainStatus == Idle && k in cache.Snapshot().data
    requires s < cache.config.numberOfReadBuffers && cache.Snapshot().writeCount[s] == 0
    requires cache.config.readBufferThreshold < cache.config.readBufferDrainThreshold
    modifies cache, cache.readBuffers, cache.readBufferWriteCount, cache.readBufferReadCount, cache.readBufferDrainAtWriteCount
    ensures cache.Valid()
    ensures pending == cache.config.readBufferThreshold && written == pending
    ensures readCount == writeCount && cleared
  {
    QuietReading(cache.config, cache.Snapshot(), s);
    assert StripeQuiet(cache.config, cache.Snapshot(), s);
    ghost var evs := ReadToThreshold(cache, s, k);
    ghost var st := cache.Snapshot();
    pending := cache.PendingReads(s);
    WindowCount(cache.config.readBufferSize, SlotOf(st.readCount[s], cache.config.readBufferSize), evs);
    written := cache.readBufferWriteCount[s];
    GetDraining(cache.config, st, s, evs, k);
    var _ := cache.Get(k, s);
    readCount := cache.readBufferReadCount[s];
    writeCount := cache.readBufferWriteCount[s];
    assert StripeQuiet(cache.config, cache.Snapshot(), s);
    cleared := SlotsCleared(cache, s);
  }
}
