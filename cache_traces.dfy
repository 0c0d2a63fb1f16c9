/** What the engine's functions do along the traces the scenarios drive. A
    drained engine has no write task queued and its eviction lock free; a
    quiet one also has every read stripe empty and drained at its write count. */
module CacheTraces {
  import opened NodeStatus
  import opened AccessOrder
  import opened ReadBuffer
  import opened CacheModel
  import opened CacheInvariant

  predicate Drained(c: Config, st: State)
  {
    Inv(c, st) && st.writeBuffer == [] && !st.lockHeld
  }

  /** Stripe `s` is empty and was drained at its write count. */
  predicate StripeQuiet(c: Config, st: State, s: nat)
    requires Shaped(c, st) && s < c.numberOfReadBuffers
  {
    AllEmpty(st.readBuffers[s]) && st.drainAt[s] == st.writeCount[s] && st.readCount[s] == st.writeCount[s]
  }

  predicate Quiet(c: Config, st: State)
    requires Shaped(c, st)
  {
    forall s :: 0 <= s < c.numberOfReadBuffers ==> StripeQuiet(c, st, s)
  }

  /** Drained, every stripe but `s` quiet, and stripe `s` holding exactly the
      events `evs` recorded since its last drain, from its read position on. */
  predicate Reading(c: Config, st: State, s: nat, evs: seq<Id>)
  {
    && Drained(c, st) && s < c.numberOfReadBuffers
    && (forall s' :: 0 <= s' < c.numberOfReadBuffers && s' != s ==> StripeQuiet(c, st, s'))
    && |evs| <= c.readBufferSize
    && st.readBuffers[s] == Window(c.readBufferSize, SlotOf(st.readCount[s], c.readBufferSize), evs)
    && st.writeCount[s] == st.readCount[s] + |evs| && st.drainAt[s] == st.readCount[s]
  }

  lemma QuietReading(c: Config, st: State, s: nat)
    requires Drained(c, st) && Quiet(c, st) && s < c.numberOfReadBuffers
    ensures Reading(c, st, s, [])
  {
    var size := c.readBufferSize;
    var p := SlotOf(st.readCount[s], size);
    assert StripeQuiet(c, st, s);
    SlotsExt(st.readBuffers[s], Window(size, p, []));
  }

  lemma ReadingQuiet(c: Config, st: State, s: nat)
    requires Reading(c, st, s, [])
    ensures Drained(c, st) && Quiet(c, st)
  {
    WindowEmpty(c.readBufferSize, SlotOf(st.readCount[s], c.readBufferSize));
  }

  /** Draining a quiet stripe changes nothing. */
  lemma QuietStripeDrain(c: Config, st: State, s: nat)
    requires ValidConfig(c) && Shaped(c, st) && s < c.numberOfReadBuffers && StripeQuiet(c, st, s)
    ensures DrainReadBuffer(c, st, s) == st
  {
    var row := st.readBuffers[s];
    assert row[SlotOf(st.readCount[s], |row|)] == Empty;
    assert st.readBuffers[s := row] == st.readBuffers;
    assert st.readCount[s := st.readCount[s]] == st.readCount;
    assert st.drainAt[s := st.writeCount[s]] == st.drainAt;
  }

  /** Every stripe from `lo` below `hi` is quiet. */
  predicate QuietBetween(c: Config, st: State, lo: nat, hi: nat)
    requires Shaped(c, st) && hi <= c.numberOfReadBuffers
    decreases hi - lo
  {
    lo < hi ==> StripeQuiet(c, st, lo) && QuietBetween(c, st, lo + 1, hi)
  }

  lemma {:induction false} QuietBetweenOf(c: Config, st: State, lo: nat, hi: nat)
    requires Shaped(c, st) && lo <= hi <= c.numberOfReadBuffers
    requires forall s :: lo <= s < hi ==> StripeQuiet(c, st, s)
    ensures QuietBetween(c, st, lo, hi)
    decreases hi - lo
  {
    if lo < hi {
      QuietBetweenOf(c, st, lo + 1, hi);
    }
  }

  lemma {:induction false} QuietStripesDrain(c: Config, st: State, lo: nat, hi: nat)
    requires ValidConfig(c) && Shaped(c, st) && lo <= hi <= c.numberOfReadBuffers
    requires QuietBetween(c, st, lo, hi)
    ensures DrainReadBuffersFrom(c, st, lo) == DrainReadBuffersFrom(c, st, hi)
    decreases hi - lo
  {
    if lo < hi {
      QuietStripeSkipped(c, st, lo);
      QuietStripesDrain(c, st, lo + 1, hi);
    }
  }

  /** Draining from a quiet stripe on is draining from the next one on. */
  lemma QuietStripeSkipped(c: Config, st: State, s: nat)
    requires ValidConfig(c) && Shaped(c, st) && s < c.numberOfReadBuffers && StripeQuiet(c, st, s)
    ensures DrainReadBuffersFrom(c, st, s) == DrainReadBuffersFrom(c, st, s + 1)
  {
    QuietStripeDrain(c, st, s);
  }

  /** With no write task queued and no read event pending, a drain changes
      nothing: not the head, not the tail, not a drain counter. */
  lemma QuietDrain(c: Config, st: State)
    requires ValidConfig(c) && Shaped(c, st) && st.writeBuffer == [] && Quiet(c, st)
    ensures DrainBuffers(c, st) == st
  {
    QuietBetweenOf(c, st, 0, c.numberOfReadBuffers);
    QuietStripesDrain(c, st, 0, c.numberOfReadBuffers);
  }

  /** Draining a stripe that holds exactly the events since its read position
      replays them and leaves the stripe quiet. */
  lemma DrainWindowStripe(c: Config, st: State, s: nat, evs: seq<Id>)
    requires ValidConfig(c) && Shaped(c, st) && s < c.numberOfReadBuffers
    requires st.readBuffers[s] == Window(c.readBufferSize, SlotOf(st.readCount[s], c.readBufferSize), evs)
    requires st.writeCount[s] == st.readCount[s] + |evs| && |evs| <= c.readBufferDrainThreshold
    ensures var d := DrainReadBuffer(c, st, s);
      && StripeQuiet(c, d, s) && d.order == ApplyAccesses(st.order, evs)
      && d.readCount[s] == st.readCount[s] + |evs|
  {
    DrainWindow(st.readBuffers[s], st.readCount[s], c.readBufferDrainThreshold, evs);
    WindowEmpty(c.readBufferSize, 0);
  }

  /** After draining stripe `s` of a reading engine every stripe is quiet. */
  lemma ReadingStripeQuiet(c: Config, st: State, s: nat, evs: seq<Id>)
    requires Reading(c, st, s, evs) && |evs| <= c.readBufferDrainThreshold
    ensures var d := DrainReadBuffer(c, st, s);
      && Quiet(c, d) && d.order == ApplyAccesses(st.order, evs) && d.readCount[s] == st.readCount[s] + |evs|
  {
    var d := DrainReadBuffer(c, st, s);
    DrainWindowStripe(c, st, s, evs);
    forall s' | 0 <= s' < c.numberOfReadBuffers && s' != s ensures StripeQuiet(c, d, s') {
      assert StripeQuiet(c, st, s');
    }
  }

  /** Only stripe `s` has anything to drain. */
  lemma ReadingDrainIsStripe(c: Config, st: State, s: nat, evs: seq<Id>)
    requires Reading(c, st, s, evs) && |evs| <= c.readBufferDrainThreshold
    ensures DrainBuffers(c, st) == DrainReadBuffer(c, st, s)
  {
    var d := DrainReadBuffer(c, st, s);
    ReadingStripeQuiet(c, st, s, evs);
    QuietBetweenOf(c, st, 0, s);
    QuietStripesDrain(c, st, 0, s);
    QuietBetweenOf(c, d, s + 1, c.numberOfReadBuffers);
    QuietStripesDrain(c, d, s + 1, c.numberOfReadBuffers);
    assert DrainWriteBuffer(st) == st;
  }

  /** Draining the pending events of stripe `s` replays them against the
      access order and leaves the engine quiet. */
  lemma DrainReading(c: Config, st: State, s: nat, evs: seq<Id>)
    requires Reading(c, st, s, evs) && |evs| <= c.readBufferDrainThreshold
    ensures var r := DrainBuffers(c, st);
      && Drained(c, r) && Quiet(c, r) && SameStore(r, st) && r.drainStatus == st.drainStatus
      && r.order == ApplyAccesses(st.order, evs) && r.readCount[s] == st.readCount[s] + |evs|
  {
    ReadingDrainIsStripe(c, st, s, evs);
    ReadingStripeQuiet(c, st, s, evs);
    DrainBuffersInv(c, st);
  }

  /** Recording a read of `n` in stripe `s` appends `n` to the stripe's
      pending events and touches nothing else. */
  lemma RecordReading(c: Config, st: State, s: nat, evs: seq<Id>, n: Id)
    requires Reading(c, st, s, evs) && |evs| < c.readBufferSize
    ensures var r := RecordRead(c, st, n, s);
      && Reading(c, r, s, evs + [n]) && SameStore(r, st) && r.order == st.order
      && r.readCount == st.readCount && r.drainAt == st.drainAt && r.drainStatus == st.drainStatus
  {
    var r := RecordRead(c, st, n, s);
    RecordExtendsWindow(st.readBuffers[s], st.readCount[s], evs, n);
    RecordReadInv(c, st, n, s);
    forall s' | 0 <= s' < c.numberOfReadBuffers && s' != s ensures StripeQuiet(c, r, s') {
      assert StripeQuiet(c, st, s');
    }
  }

  /** A read below the threshold while IDLE is only recorded: its event joins
      the stripe and the order is untouched. */
  lemma GetRecorded(c: Config, st: State, s: nat, evs: seq<Id>, k: Key)
    requires Reading(c, st, s, evs) && st.drainStatus == Idle && k in st.data
    requires |evs| < c.readBufferThreshold
    ensures var g := Get(c, st, k, s);
      && Reading(c, g.0, s, evs + [st.data[k]]) && g.0.drainStatus == Idle
      && SameStore(g.0, st) && g.0.order == st.order && g.0.readCount == st.readCount
      && g.1 == Some(st.nodes[st.data[k]].value)
  {
    RecordReading(c, st, s, evs, st.data[k]);
  }

  /** Reading does not depend on the drain status. */
  lemma ReadingStatus(c: Config, st: State, s: nat, evs: seq<Id>, x: DrainStatus)
    requires Reading(c, st, s, evs)
    ensures Reading(c, st.(drainStatus := x), s, evs)
  {
    var st2 := st.(drainStatus := x);
    StatusInv(c, st, [], x);
    forall s' | 0 <= s' < c.numberOfReadBuffers && s' != s ensures StripeQuiet(c, st2, s') {
      assert StripeQuiet(c, st, s');
    }
  }

  /** A read at the threshold, while IDLE, records and then drains as PROCESSING. */
  lemma GetAtThreshold(c: Config, st: State, s: nat, evs: seq<Id>, k: Key)
    requires Reading(c, st, s, evs) && st.drainStatus == Idle && k in st.data
    requires c.readBufferThreshold <= |evs|
    ensures var st1 := RecordRead(c, st, st.data[k], s);
      Get(c, st, k, s).0 == DrainBuffers(c, st1.(drainStatus := Processing)).(drainStatus := Idle)
  {
  }

  /** The read that finds the threshold of pending events reached drains: all
      its stripe's events, its own last, are replayed and the engine is quiet. */
  lemma GetDraining(c: Config, st: State, s: nat, evs: seq<Id>, k: Key)
    requires Reading(c, st, s, evs) && st.drainStatus == Idle && k in st.data
    requires c.readBufferThreshold <= |evs| < c.readBufferDrainThreshold
    ensures var g := Get(c, st, k, s);
      && Drained(c, g.0) && Quiet(c, g.0) && g.0.drainStatus == Idle && SameStore(g.0, st)
      && g.0.order == ApplyAccesses(st.order, evs + [st.data[k]])
      && g.0.readCount[s] == g.0.writeCount[s] == st.writeCount[s] + 1
      && g.1 == Some(st.nodes[st.data[k]].value)
  {
    var n := st.data[k];
    var st1 := RecordRead(c, st, n, s);
    RecordReading(c, st, s, evs, n);
    ReadingStatus(c, st1, s, evs + [n], Processing);
    DrainReading(c, st1.(drainStatus := Processing), s, evs + [n]);
    GetAtThreshold(c, st, s, evs, k);
    var d := DrainBuffers(c, st1.(drainStatus := Processing));
    QuietStatus(c, d, Idle);
  }

  /** Neither being drained nor being quiet depends on the drain status. */
  lemma QuietStatus(c: Config, st: State, x: DrainStatus)
    requires Drained(c, st) && Quiet(c, st)
    ensures Drained(c, st.(drainStatus := x)) && Quiet(c, st.(drainStatus := x))
  {
    var st2 := st.(drainStatus := x);
    StatusInv(c, st, [], x);
    forall s' | 0 <= s' < c.numberOfReadBuffers ensures StripeQuiet(c, st2, s') {
      assert StripeQuiet(c, st, s');
    }
  }

  // ---------------------------------------------------------------------------
  // Writes

  /** Eviction does not look at the drain status. */
  lemma {:induction false} EvictIgnoresStatus(st: State, x: DrainStatus)
    ensures Evict(st.(drainStatus := x)) == Evict(st).(drainStatus := x)
    decreases |st.order|
  {
    if st.weightedSize > st.maximum && st.order != [] {
      assert EvictHead(st.(drainStatus := x)) == EvictHead(st).(drainStatus := x);
      EvictIgnoresStatus(EvictHead(st), x);
    }
  }

  /** With every stripe quiet, a drain only runs the write buffer. */
  lemma WriteDrainOnly(c: Config, st: State)
    requires ValidConfig(c) && Shaped(c, st) && Quiet(c, st)
    ensures DrainBuffers(c, st) == DrainWriteBuffer(st)
  {
    var dw := DrainWriteBuffer(st);
    forall s | 0 <= s < c.numberOfReadBuffers ensures StripeQuiet(c, dw, s) {
      assert StripeQuiet(c, st, s);
    }
    QuietBetweenOf(c, dw, 0, c.numberOfReadBuffers);
    QuietStripesDrain(c, dw, 0, c.numberOfReadBuffers);
  }

  /** Queuing one task on a drained engine and draining at once runs that task,
      as PROCESSING, and leaves the status IDLE. */
  lemma AfterWriteRuns(c: Config, st: State, t: Task)
    requires ValidConfig(c) && Shaped(c, st) && Quiet(c, st) && st.writeBuffer == [] && !st.lockHeld
    ensures AfterWrite(c, st, t) == ApplyTask(st.(drainStatus := Processing), t).(drainStatus := Idle)
  {
    var q := st.(writeBuffer := [t], drainStatus := Processing);
    forall s | 0 <= s < c.numberOfReadBuffers ensures StripeQuiet(c, q, s) {
      assert StripeQuiet(c, st, s);
    }
    WriteDrainOnly(c, q);
    assert st.writeBuffer + [t] == [t];
    assert TryToDrainBuffers(c, st.(writeBuffer := [t], drainStatus := Required)) == DrainBuffers(c, q).(drainStatus := Idle);
    assert q.(writeBuffer := []) == st.(drainStatus := Processing);
    assert ApplyTasks(q.(writeBuffer := []), [t]) == ApplyTasks(ApplyTask(q.(writeBuffer := []), t), []);
  }

  /** A task handed to `afterWrite` with the lock free runs before the call
      returns, and the write buffer is left empty. */
  lemma ProbeRuns(c: Config, st: State, tag: nat)
    requires ValidConfig(c) && Shaped(c, st) && Quiet(c, st) && st.writeBuffer == [] && !st.lockHeld
    ensures AfterWrite(c, st, ProbeTask(tag)).ran == st.ran + [tag]
    ensures AfterWrite(c, st, ProbeTask(tag)).writeBuffer == []
  {
    AfterWriteRuns(c, st, ProbeTask(tag));
  }

  /** Inserting an absent key into a quiet engine links it at once and evicts
      as needed; the engine stays drained, quiet and IDLE. */
  lemma InsertQuiet(c: Config, st: State, k: Key, v: Value, w: nat)
    requires Drained(c, st) && Quiet(c, st) && st.drainStatus == Idle
    requires k !in st.data && w <= c.maximumWeight
    ensures var r := Insert(c, st, k, v, w);
      && r == Evict(Added(Mapping(st, k, v, w), |st.nodes|))
      && Drained(c, r) && Quiet(c, r) && SameReadSide(r, st)
  {
    var m := Mapping(st, k, v, w);
    var n := |st.nodes|;
    forall s | 0 <= s < c.numberOfReadBuffers ensures StripeQuiet(c, m, s) {
      assert StripeQuiet(c, st, s);
    }
    AfterWriteRuns(c, m, AddTask(n));
    assert n !in st.order;
    assert Added(m.(drainStatus := Processing), n) == Added(m, n).(drainStatus := Processing);
    EvictIgnoresStatus(Added(m, n), Processing);
    InsertInv(c, st, k, v, w);
    var r := Insert(c, st, k, v, w);
    forall s | 0 <= s < c.numberOfReadBuffers ensures StripeQuiet(c, r, s) {
      assert StripeQuiet(c, st, s);
    }
  }

  /** On a drained engine every key is linked. */
  lemma MappedLinked(c: Config, st: State, k: Key)
    requires Drained(c, st) && k in st.data
    ensures st.data[k] in st.order && st.data[k] < |st.nodes|
  {
    assert AddTask(st.data[k]) !in st.writeBuffer;
  }

  /** The head of a drained engine's order is ALIVE and is what its key maps to. */
  lemma HeadMapped(c: Config, st: State)
    requires Drained(c, st) && st.order != []
    ensures var first := st.order[0];
      && first < |st.nodes| && st.nodes[first].status == Alive
      && st.nodes[first].key in st.data && st.data[st.nodes[first].key] == first
  {
    DrainedAlive(c, st);
    assert st.order[0] in st.order;
  }

  /** Writing a present key of a quiet engine with an unchanged weight replaces
      the value in place, reports the old one as REPLACED, moves the node to
      the tail and evicts nothing. */
  lemma OverwriteQuiet(c: Config, st: State, k: Key, v: Value, w: nat)
    requires Drained(c, st) && Quiet(c, st) && st.drainStatus == Idle && k in st.data
    requires w == st.nodes[st.data[k]].weight
    ensures var n := st.data[k]; var r := Overwrite(c, st, k, v, w);
      && Drained(c, r) && Quiet(c, r) && SameReadSide(r, st)
      && r.order == MoveToTail(st.order, n) && r.data == st.data && r.weightedSize == st.weightedSize
      && r.nodes == st.nodes[n := st.nodes[n].(value := v)]
      && r.notifications == st.notifications + [Notification(k, st.nodes[n].value, Replaced)]
  {
    OverwriteInPlace(c, st, k, v, w);
    OverwriteInv(c, st, k, v, w);
    var r := Overwrite(c, st, k, v, w);
    forall s | 0 <= s < c.numberOfReadBuffers ensures StripeQuiet(c, r, s) {
      assert StripeQuiet(c, st, s);
    }
  }

  /** The state an in-place overwrite of a quiet engine leaves: the new value,
      the node moved to the tail and the REPLACED notification. */
  lemma OverwriteInPlace(c: Config, st: State, k: Key, v: Value, w: nat)
    requires Drained(c, st) && Quiet(c, st) && st.drainStatus == Idle && k in st.data
    requires w == st.nodes[st.data[k]].weight
    ensures var n := st.data[k];
      Overwrite(c, st, k, v, w)
        == st.(nodes := st.nodes[n := st.nodes[n].(value := v)], order := MoveToTail(st.order, n),
               notifications := st.notifications + [Notification(k, st.nodes[n].value, Replaced)])
  {
    var n := st.data[k];
    MappedLinked(c, st, k);
    var rv := Revalued(st, n, v);
    forall s | 0 <= s < c.numberOfReadBuffers ensures StripeQuiet(c, rv, s) {
      assert StripeQuiet(c, st, s);
    }
    AfterWriteRuns(c, rv, UpdateTask(n, w));
    var u := Updated(rv.(drainStatus := Processing), n, w);
    assert u.weightedSize == st.weightedSize;
    assert rv.nodes[n := rv.nodes[n].(weight := w)] == rv.nodes;
  }

  /** `afterRead` on an IDLE engine with the lock free: the first read that
      finds the stripe at its threshold drains it, and the drain counter then
      becomes the write count after that read; any other read leaves the drain
      counter alone. */
  lemma AfterReadDrainAt(c: Config, st: State, n: Id, s: nat)
    requires ValidConfig(c) && Shaped(c, st) && s < c.numberOfReadBuffers
    requires st.drainStatus == Idle && !st.lockHeld
    ensures var r := AfterRead(c, st, n, s);
      && r.drainAt[s] == (if ReadBufferFull(c, st, s, st.writeCount[s]) then st.writeCount[s] + 1 else st.drainAt[s])
      && r.writeCount[s] == st.writeCount[s] + 1 && r.drainStatus == Idle && !r.lockHeld
  {
  }

  // ---------------------------------------------------------------------------
  // Recency: an operation on the least recently used entry makes it the most
  // recently used one once the buffers are drained.

  /** A drained, quiet, IDLE engine with at least two linked entries. */
  predicate Full(c: Config, st: State)
  {
    Drained(c, st) && Quiet(c, st) && st.drainStatus == Idle && |st.order| >= 2
  }

  /** The key of the entry at the head of the order. */
  function HeadKey(c: Config, st: State): (k: Key)
    requires Full(c, st)
    ensures k in st.data && st.data[k] == st.order[0]
    ensures st.order[0] < |st.nodes| && st.nodes[st.order[0]].key == k
  {
    HeadMapped(c, st);
    st.nodes[st.order[0]].key
  }

  /** The order after the head has been touched: the second entry leads, the
      old head is last. */
  predicate HeadMoved(before: State, after: State)
    requires |before.order| >= 2
  {
    && after.order == before.order[1..] + [before.order[0]]
    && after.order[0] == before.order[1] != before.order[0]
    && after.order[|after.order| - 1] == before.order[0]
  }

  lemma HeadMovedByAccess(c: Config, st: State, r: State)
    requires Full(c, st) && r.order == MoveToTail(st.order, st.order[0])
    ensures HeadMoved(st, r)
  {
    MoveHeadToTail(st.order);
  }

  /** `get` of the head's key, then a drain. */
  lemma RecencyOnGet(c: Config, st: State, s: nat)
    requires Full(c, st) && s < c.numberOfReadBuffers
    ensures var r := DrainBuffers(c, Get(c, st, HeadKey(c, st), s).0);
      Drained(c, r) && Quiet(c, r) && HeadMoved(st, r)
  {
    var k := HeadKey(c, st);
    QuietReading(c, st, s);
    GetRecorded(c, st, s, [], k);
    var g := Get(c, st, k, s).0;
    DrainReading(c, g, s, [st.order[0]]);
    assert ApplyAccesses(st.order, [st.order[0]]) == MoveToTail(st.order, st.order[0]);
    HeadMovedByAccess(c, st, DrainBuffers(c, g));
  }

  /** `putIfAbsent` of the head's key is a read of it. */
  lemma RecencyOnPutIfAbsent(c: Config, st: State, v: Value, w: nat, s: nat)
    requires Full(c, st) && s < c.numberOfReadBuffers
    ensures var r := DrainBuffers(c, PutIfAbsent(c, st, HeadKey(c, st), v, w, s).0);
      Drained(c, r) && Quiet(c, r) && HeadMoved(st, r)
  {
    RecencyOnGet(c, st, s);
  }

  /** Overwriting the head's value with one of the same weight. */
  lemma RecencyOnOverwrite(c: Config, st: State, v: Value)
    requires Full(c, st)
    ensures var k := HeadKey(c, st); var w := st.nodes[st.order[0]].weight;
      var r := DrainBuffers(c, Overwrite(c, st, k, v, w));
      Drained(c, r) && Quiet(c, r) && HeadMoved(st, r)
  {
    var k := HeadKey(c, st);
    var w := st.nodes[st.order[0]].weight;
    OverwriteQuiet(c, st, k, v, w);
    var o := Overwrite(c, st, k, v, w);
    QuietDrain(c, o);
    HeadMovedByAccess(c, st, o);
  }

  /** `put` of the head's key. */
  lemma RecencyOnPut(c: Config, st: State, v: Value)
    requires Full(c, st)
    ensures var r := DrainBuffers(c, Put(c, st, HeadKey(c, st), v, st.nodes[st.order[0]].weight).0);
      Drained(c, r) && Quiet(c, r) && HeadMoved(st, r)
  {
    RecencyOnOverwrite(c, st, v);
  }

  /** `replace(key, value)` of the head's key. */
  lemma RecencyOnReplace(c: Config, st: State, v: Value)
    requires Full(c, st)
    ensures var r := DrainBuffers(c, Replace(c, st, HeadKey(c, st), v, st.nodes[st.order[0]].weight).0);
      Drained(c, r) && Quiet(c, r) && HeadMoved(st, r)
  {
    RecencyOnOverwrite(c, st, v);
  }

  /** `replace(key, value, value)` of the head's key with its current value. */
  lemma RecencyOnReplaceConditionally(c: Config, st: State)
    requires Full(c, st)
    ensures var k := HeadKey(c, st); var v := st.nodes[st.order[0]].value;
      var p := ReplaceConditionally(c, st, k, v, v, st.nodes[st.order[0]].weight);
      var r := DrainBuffers(c, p.0);
      p.1 && Drained(c, r) && Quiet(c, r) && HeadMoved(st, r)
  {
    var k := HeadKey(c, st);
    RecencyOnOverwrite(c, st, st.nodes[st.order[0]].value);
  }

  // ---------------------------------------------------------------------------
  // Eviction in LRU order: every node was created for the key equal to its
  // handle and weighs one.

  predicate UnitNodes(st: State)
  {
    forall i :: 0 <= i < |st.nodes| ==> st.nodes[i].key == i && st.nodes[i].weight == 1
  }

  /** Drained, quiet and IDLE, with unit nodes linked as `order` and the
      weighted size counting exactly the linked entries. */
  predicate Settled(c: Config, st: State, order: seq<Id>)
  {
    && Drained(c, st) && Quiet(c, st) && st.drainStatus == Idle && UnitNodes(st)
    && st.order == order && st.weightedSize == |order|
  }

  /** With unit nodes, a key is mapped only to its own handle. */
  lemma FreshKeyAbsent(c: Config, st: State)
    requires Drained(c, st) && UnitNodes(st)
    ensures |st.nodes| !in st.data
  {
  }

  /** What a settled engine reports: its map holds exactly the keys of the
      order, and iterating the order yields them in LRU order. */
  lemma SettledView(c: Config, st: State, order: seq<Id>)
    requires Settled(c, st, order)
    ensures KeysOf(st.nodes, order) == order
    ensures |st.data| == |order| && st.data.Keys == set x | x in order
  {
    DrainedConsistent(c, st);
    var ks := KeysOf(st.nodes, order);
    forall i | 0 <= i < |order| ensures ks[i] == order[i] {
      assert order[i] in st.order;
    }
    assert ks == order;
    assert forall x :: x in st.data.Keys <==> x in order;
  }

  /** The next unit node, linked at the tail of `order`. */
  lemma UnitAdded(st: State, order: seq<Id>, v: Value)
    requires UnitNodes(st) && st.order == order && st.weightedSize == |order|
    ensures var k := |st.nodes|; var a := Added(Mapping(st, k, v, 1), k);
      && UnitNodes(a) && a.order == order + [k] && a.weightedSize == |order| + 1
      && a.notifications == st.notifications && a.maximum == st.maximum
      && a.nodes == st.nodes + [Node(k, v, 1, Alive)]
  {
  }

  /** Putting the next fresh key into a settled engine adds a unit node for
      it, links it at the tail and then evicts as needed. */
  lemma PutNext(c: Config, st: State, order: seq<Id>, v: Value)
    requires Settled(c, st, order) && 1 <= c.maximumWeight
    ensures var k := |st.nodes|; var a := Added(Mapping(st, k, v, 1), k);
      && Put(c, st, k, v, 1) == (Evict(a), None)
      && Drained(c, Evict(a)) && Quiet(c, Evict(a)) && SameReadSide(Evict(a), st)
      && UnitNodes(a) && a.order == order + [k] && a.weightedSize == |order| + 1
      && a.notifications == st.notifications && a.maximum == st.maximum
      && a.nodes == st.nodes + [Node(k, v, 1, Alive)]
  {
    var k := |st.nodes|;
    FreshKeyAbsent(c, st);
    InsertQuiet(c, st, k, v, 1);
    UnitAdded(st, order, v);
  }

  /** Putting the next fresh key while below the maximum links it at the tail
      and evicts nothing. */
  lemma PutFresh(c: Config, st: State, order: seq<Id>, v: Value)
    requires Settled(c, st, order) && |order| < st.maximum && 1 <= c.maximumWeight
    ensures var p := Put(c, st, |st.nodes|, v, 1);
      && Settled(c, p.0, order + [|st.nodes|]) && p.1 == None && |p.0.nodes| == |st.nodes| + 1
      && p.0.notifications == st.notifications && SameReadSide(p.0, st) && p.0.maximum == st.maximum
  {
    PutNext(c, st, order, v);
  }

  /** Evicting the ALIVE head of an over-full engine of unit nodes. */
  lemma EvictUnitHead(a: State)
    requires UnitNodes(a) && a.order != [] && a.weightedSize == a.maximum + 1
    requires a.order[0] < |a.nodes| && a.nodes[a.order[0]].status == Alive
    ensures var v := a.order[0]; var e := Evict(a);
      && e == EvictHead(a) && UnitNodes(e) && e.order == a.order[1..] && e.weightedSize == a.maximum
      && e.nodes[v].status == Dead
      && e.notifications == a.notifications + [Notification(v, a.nodes[v].value, RemovalCause.Size)]
  {
    EvictOnce(a);
    UnitHeadEvicted(a);
  }

  /** What removing the ALIVE head of unit nodes leaves. */
  lemma UnitHeadEvicted(a: State)
    requires UnitNodes(a) && a.order != [] && a.weightedSize == a.maximum + 1
    requires a.order[0] < |a.nodes| && a.nodes[a.order[0]].status == Alive
    ensures var v := a.order[0]; var e := EvictHead(a);
      && UnitNodes(e) && e.order == a.order[1..] && e.weightedSize == a.maximum && e.nodes[v].status == Dead
      && e.notifications == a.notifications + [Notification(v, a.nodes[v].value, RemovalCause.Size)]
  {
  }

  /** Putting the next fresh key at the maximum evicts the head: it leaves the
      map, dies and is reported with cause SIZE. */
  lemma PutEvicting(c: Config, st: State, order: seq<Id>, v: Value)
    requires Settled(c, st, order) && 0 < |order| == st.maximum && 1 <= c.maximumWeight
    ensures var p := Put(c, st, |st.nodes|, v, 1);
      && Settled(c, p.0, order[1..] + [|st.nodes|]) && p.1 == None && order[0] < |st.nodes|
      && |p.0.nodes| == |st.nodes| + 1 && p.0.nodes[order[0]].status == Dead
      && p.0.notifications == st.notifications + [Notification(order[0], st.nodes[order[0]].value, RemovalCause.Size)]
      && SameReadSide(p.0, st) && p.0.maximum == st.maximum
  {
    var k := |st.nodes|;
    PutNext(c, st, order, v);
    HeadMapped(c, st);
    var a := Added(Mapping(st, k, v, 1), k);
    assert a.order[0] == order[0] && a.nodes[order[0]] == st.nodes[order[0]];
    EvictUnitHead(a);
    TailAppend(order, k);
  }

  lemma TailAppend(s: seq<Id>, x: Id)
    requires s != []
    ensures (s + [x])[1..] == s[1..] + [x]
  {
  }

  /** A settled engine whose stripe `s` holds the reads `evs` since it was quiet. */
  predicate SettledReading(c: Config, st: State, s: nat, evs: seq<Id>, order: seq<Id>)
  {
    && Reading(c, st, s, evs) && st.drainStatus == Idle && UnitNodes(st)
    && st.order == order && st.weightedSize == |order|
  }

  lemma SettledStartsReading(c: Config, st: State, s: nat, order: seq<Id>)
    requires Settled(c, st, order) && s < c.numberOfReadBuffers
    ensures SettledReading(c, st, s, [], order)
  {
    QuietReading(c, st, s);
  }

  /** A `get` of a linked key below the threshold is recorded and nothing else. */
  lemma SettledGet(c: Config, st: State, s: nat, evs: seq<Id>, order: seq<Id>, k: Key)
    requires SettledReading(c, st, s, evs, order) && k in order
    requires |evs| < c.readBufferThreshold
    ensures var g := Get(c, st, k, s);
      && SettledReading(c, g.0, s, evs + [k], order) && g.1.Some?
      && g.0.notifications == st.notifications && g.0.readCount == st.readCount && g.0.maximum == st.maximum
      && g.0.nodes == st.nodes
  {
    DrainedConsistent(c, st);
    assert k in KeysOf(st.nodes, st.order);
    var i :| 0 <= i < |order| && KeysOf(st.nodes, order)[i] == k;
    assert order[i] in st.order;
    GetRecorded(c, st, s, evs, k);
  }

  /** Draining the reads of the entries at the head of the order, in order,
      moves them to the tail. */
  lemma SettledReorder(c: Config, st: State, s: nat, evs: seq<Id>, order: seq<Id>)
    requires SettledReading(c, st, s, evs, order) && |evs| <= c.readBufferDrainThreshold
    requires |evs| <= |order| && order[..|evs|] == evs
    ensures var r := DrainBuffers(c, st);
      && Settled(c, r, order[|evs|..] + evs) && r.notifications == st.notifications
      && r.maximum == st.maximum && r.readCount[s] == st.readCount[s] + |evs| && r.nodes == st.nodes
  {
    DrainReading(c, st, s, evs);
    AccessPrefix(order, evs);
  }

  lemma InitialQuiet(c: Config, maximumWeight: nat)
    requires ValidConfig(c)
    ensures var st := Initial(c, maximumWeight); Drained(c, st) && Quiet(c, st) && st.drainStatus == Idle
  {
    InitialInv(c, maximumWeight);
  }

  /** `afterWrite` accepts any task that only runs code. */
  lemma ProbeAllowed(c: Config, st: State, tag: nat)
    requires Inv(c, st)
    ensures InvPending(c, st, st.writeBuffer + [ProbeTask(tag)])
  {
    PendingGrow(c, st, st.writeBuffer, ProbeTask(tag));
  }

  /** An eviction that stops after its first victim. */
  lemma EvictOnce(a: State)
    requires a.order != [] && a.weightedSize > a.maximum
    requires a.weightedSize - WeightAt(a.nodes, a.order[0]) <= a.maximum
    ensures Evict(a) == EvictHead(a)
  {
    assert Evict(a) == Evict(EvictHead(a));
  }

  /** Linking a new node of weight `w` behind a single ALIVE entry of weight
      `w` at the maximum evicts that entry and nothing else. */
  lemma EvictSingle(st: State, k: Key, v: Value, w: nat)
    requires |st.order| == 1 && st.order[0] < |st.nodes| && st.nodes[st.order[0]].status == Alive
    requires st.weightedSize == st.maximum && 0 < w && st.nodes[st.order[0]].weight == w
    requires k !in st.data && st.nodes[st.order[0]].key in st.data
    ensures var n := |st.nodes|; var e := Evict(Added(Mapping(st, k, v, w), n));
      && e.weightedSize == st.maximum && e.order == [n]
      && e.data.Keys == st.data.Keys - {st.nodes[st.order[0]].key} + {k}
  {
    SingleHeadEvicted(st, k, v, w);
    EvictOnce(Added(Mapping(st, k, v, w), |st.nodes|));
  }

  /** The head eviction `EvictSingle` performs, on its own. */
  lemma SingleHeadEvicted(st: State, k: Key, v: Value, w: nat)
    requires |st.order| == 1 && st.order[0] < |st.nodes| && st.nodes[st.order[0]].status == Alive
    requires st.weightedSize == st.maximum && 0 < w && st.nodes[st.order[0]].weight == w
    requires k !in st.data && st.nodes[st.order[0]].key in st.data
    ensures var n := |st.nodes|; var a := Added(Mapping(st, k, v, w), n);
      && a.order != [] && a.weightedSize > a.maximum
      && a.weightedSize - WeightAt(a.nodes, a.order[0]) <= a.maximum
      && var e := EvictHead(a);
      && e.weightedSize == st.maximum && e.order == [n]
      && e.data.Keys == st.data.Keys - {st.nodes[st.order[0]].key} + {k}
  {
    var n := |st.nodes|;
    var h := st.order[0];
    var hk := st.nodes[h].key;
    var a := Added(Mapping(st, k, v, w), n);
    assert a.order == [h, n] && a.nodes[h] == st.nodes[h] && a.data == st.data[k := n];
    var e := EvictHead(a);
    assert e.data == a.data - {hk};
    assert hk != k;
    assert e.data.Keys == st.data.Keys - {hk} + {k};
  }

  /** Putting a new key when the weighted size is already at the maximum and a
      single entry of the same positive weight is linked: that entry is evicted
      and the weighted size ends at the maximum again, with no overflow. */
  lemma PutPastMaximum(c: Config, st: State, k: Key, v: Value, w: nat)
    requires Drained(c, st) && Quiet(c, st) && st.drainStatus == Idle && k !in st.data
    requires |st.order| == 1 && st.weightedSize == st.maximum
    requires 0 < w <= c.maximumWeight && WeightAt(st.nodes, st.order[0]) == w
    ensures var r := Insert(c, st, k, v, w);
      && Drained(c, r) && Quiet(c, r) && r.weightedSize == st.maximum && r.order == [|st.nodes|]
      && st.order[0] < |st.nodes| && r.data.Keys == st.data.Keys - {st.nodes[st.order[0]].key} + {k}
  {
    InsertQuiet(c, st, k, v, w);
    HeadMapped(c, st);
    EvictSingle(st, k, v, w);
  }

  /** Quietness only looks at the read buffers and their counters. */
  lemma QuietAlike(c: Config, a: State, b: State)
    requires Shaped(c, a) && Quiet(c, a)
    requires b.readBuffers == a.readBuffers && b.writeCount == a.writeCount
    requires b.readCount == a.readCount && b.drainAt == a.drainAt
    ensures Shaped(c, b) && Quiet(c, b)
  {
    forall s | 0 <= s < c.numberOfReadBuffers ensures StripeQuiet(c, b, s) {
      assert StripeQuiet(c, a, s);
    }
  }

  /** The add of node 1 and the removal of the RETIRED node 0 at the head, both
      queued while the lock was held, drained with a maximum of one: the add
      evicts node 0 by only unlinking it, and the removal then kills it and
      reports it with cause EXPLICIT, exactly once. */
  lemma RetiredVictimDrain(c: Config, st: State)
    requires ValidConfig(c) && Shaped(c, st) && Quiet(c, st)
    requires st.writeBuffer == [AddTask(1), RemovalTask(0)] && st.order == [0] && |st.nodes| == 2
    requires st.nodes[0].status == Retired && st.nodes[0].weight == 1
    requires st.nodes[1].status == Alive && st.nodes[1].weight == 1
    requires st.weightedSize == 1 && st.maximum == 1
    ensures var r := DrainBuffers(c, st);
      && r.nodes[0].status == Dead && r.order == [1] && r.data == st.data && r.weightedSize == 1
      && r.notifications == st.notifications + [Notification(st.nodes[0].key, st.nodes[0].value, Explicit)]
  {
    WriteDrainOnly(c, st);
    var x := st.(writeBuffer := []);
    var a := Added(x, 1);
    assert a.order == [0, 1];
    EvictOnce(a);
    var y := ApplyTask(x, AddTask(1));
    assert y == EvictHead(a);
    assert y.order == [1] && y.nodes == st.nodes && y.data == st.data;
    assert Without([1], 0) == [1] by {
      assert Without([1][1..], 0) == [];
    }
    var z := ApplyTask(y, RemovalTask(0));
    assert ApplyTasks(x, st.writeBuffer) == ApplyTasks(y, [RemovalTask(0)]);
    assert ApplyTasks(y, [RemovalTask(0)]) == ApplyTasks(z, []);
  }

  // ---------------------------------------------------------------------------
  // Whole scenarios

  /** A first put into a fresh engine links the entry and evicts nothing. */
  lemma FirstPut(c: Config, maximumWeight: nat, k: Key, v: Value, w: nat)
    requires ValidConfig(c) && w <= c.maximumWeight
    requires w <= maximumWeight && w <= c.maximumCapacity
    ensures var st1 := Put(c, Initial(c, maximumWeight), k, v, w).0;
      && Drained(c, st1) && Quiet(c, st1) && st1.drainStatus == Idle
      && st1 == Initial(c, maximumWeight).(order := [0], nodes := [Node(k, v, w, Alive)], data := map[k := 0], weightedSize := w)
  {
    var st0 := Initial(c, maximumWeight);
    var a := Added(Mapping(st0, k, v, w), 0);
    assert Put(c, st0, k, v, w).0 == Evict(a) && Drained(c, Evict(a)) && Quiet(c, Evict(a)) by {
      InitialQuiet(c, maximumWeight);
      InsertQuiet(c, st0, k, v, w);
    }
    assert a.weightedSize <= a.maximum;
    assert Evict(a) == a;
    assert a == st0.(order := [0], nodes := [Node(k, v, w, Alive)], data := map[k := 0], weightedSize := w) by {
      assert a.nodes == [] + [Node(k, v, w, Alive)] == [Node(k, v, w, Alive)];
      assert a.order == [] + [0] == [0];
      assert a.data == map[][k := 0] == map[k := 0];
    }
  }

  /** Two puts of entries weighing `w` into a fresh engine with no configured
      limit, the counter set to MAXIMUM_CAPACITY in between: the second put
      evicts the first entry and the counter ends at MAXIMUM_CAPACITY. */
  lemma PutWeightedTrace(c: Config, w: nat)
    requires ValidConfig(c) && 0 < w <= c.maximumCapacity && w <= c.maximumWeight
    ensures var st1 := Put(c, Initial(c, LONG_MAX), 1, 1, w).0;
      && WeightOf(st1.nodes, st1.order) <= c.maximumCapacity <= st1.maximum
      && var st2 := st1.(weightedSize := c.maximumCapacity);
      && Mapped(st2)
      && var st3 := Put(c, st2, 2, 2, w).0;
      && |st3.data| == 1 && st3.weightedSize == c.maximumCapacity
  {
    var st0 := Initial(c, LONG_MAX);
    var st1 := Put(c, st0, 1, 1, w).0;
    assert st1 == st0.(order := [0], nodes := [Node(1, 1, w, Alive)], data := map[1 := 0], weightedSize := w)
      && Quiet(c, st1) && Drained(c, st1) by {
      FirstPut(c, LONG_MAX, 1, 1, w);
    }
    assert WeightOf(st1.nodes, st1.order) == w;
    var st2 := st1.(weightedSize := c.maximumCapacity);
    assert Quiet(c, st2) by {
      QuietAlike(c, st1, st2);
    }
    SecondPut(c, st2, w);
  }


  /** The second put of the scenario above, from the counter set to the maximum. */
  lemma SecondPut(c: Config, st2: State, w: nat)
    requires Shaped(c, st2) && Quiet(c, st2) && st2.drainStatus == Idle && !st2.lockHeld && st2.writeBuffer == []
    requires ValidConfig(c) && 0 < w <= c.maximumCapacity && w <= c.maximumWeight
    requires st2 == Initial(c, LONG_MAX).(order := [0], nodes := [Node(1, 1, w, Alive)], data := map[1 := 0], weightedSize := c.maximumCapacity)
    ensures Mapped(st2)
    ensures var st3 := Put(c, st2, 2, 2, w).0; |st3.data| == 1 && st3.weightedSize == c.maximumCapacity
  {
    CounterSetDrained(c, st2, w);
    var st3 := Put(c, st2, 2, 2, w).0;
    assert st3.data.Keys == {2} && st3.weightedSize == c.maximumCapacity by {
      PutPastMaximum(c, st2, 2, 2, w);
    }
  }

  /** The engine after the first put, with the counter set to the maximum, is drained. */
  lemma CounterSetDrained(c: Config, st2: State, w: nat)
    requires Shaped(c, st2) && !st2.lockHeld && st2.writeBuffer == []
    requires ValidConfig(c) && 0 < w <= c.maximumCapacity && w <= c.maximumWeight
    requires st2 == Initial(c, LONG_MAX).(order := [0], nodes := [Node(1, 1, w, Alive)], data := map[1 := 0], weightedSize := c.maximumCapacity)
    ensures Drained(c, st2)
  {
    var st1 := st2.(weightedSize := w);
    assert WeightOf(st1.nodes, st1.order) == w;
    InsertInv(c, Initial(c, LONG_MAX), 1, 1, w);
    assert Inv(c, st1) by {
      FirstPut(c, LONG_MAX, 1, 1, w);
    }
    CounterSetInv(c, st1, c.maximumCapacity);
  }



  /** While the eviction lock is held a put of an absent key only maps it and
      queues its add task. */
  lemma LockedInsert(c: Config, st: State, k: Key, v: Value, w: nat)
    requires ValidConfig(c) && Shaped(c, st) && Mapped(st) && st.lockHeld && k !in st.data
    ensures Put(c, st, k, v, w).0
      == Mapping(st, k, v, w).(writeBuffer := st.writeBuffer + [AddTask(|st.nodes|)], drainStatus := Required)
  {
  }

  /** While the eviction lock is held a removal unmaps the key, retires its
      node and only queues the removal task. */
  lemma LockedRemove(c: Config, st: State, k: Key)
    requires ValidConfig(c) && Shaped(c, st) && Mapped(st) && st.lockHeld && k in st.data
    ensures Remove(c, st, k)
      == (Unmapping(st, k).(writeBuffer := st.writeBuffer + [RemovalTask(st.data[k])], drainStatus := Required),
          Some(st.nodes[st.data[k]].value))
  {
  }

  /** The states of the already-removed scenario: key 1 put into a fresh
      engine with a maximum of one, the lock taken, key 2 put, key 1 removed. */
  function LockedAfterPut(c: Config): State
  {
    Initial(c, 1).(order := [0], nodes := [Node(1, -1, 1, Alive)], data := map[1 := 0], weightedSize := 1,
                   lockHeld := true)
  }

  function LockedAfterSecondPut(c: Config): State
  {
    LockedAfterPut(c).(nodes := [Node(1, -1, 1, Alive), Node(2, -2, 1, Alive)], data := map[1 := 0, 2 := 1],
                       writeBuffer := [AddTask(1)], drainStatus := Required)
  }

  function LockedAfterRemove(c: Config): State
  {
    LockedAfterPut(c).(nodes := [Node(1, -1, 1, Retired), Node(2, -2, 1, Alive)], data := map[2 := 1],
                       writeBuffer := [AddTask(1), RemovalTask(0)], drainStatus := Required)
  }

  lemma AlreadyRemovedFirst(c: Config)
    requires ValidConfig(c) && 1 <= c.maximumWeight && 1 <= c.maximumCapacity
    ensures Put(c, Initial(c, 1), 1, -1, 1).0.(lockHeld := true) == LockedAfterPut(c)
    ensures Shaped(c, LockedAfterPut(c)) && Quiet(c, LockedAfterPut(c))
  {
    var st1 := Put(c, Initial(c, 1), 1, -1, 1).0;
    assert st1.(lockHeld := true) == LockedAfterPut(c) && Quiet(c, st1) && Shaped(c, st1) by {
      FirstPut(c, 1, 1, -1, 1);
    }
    QuietAlike(c, st1, LockedAfterPut(c));
  }

  lemma AlreadyRemovedSecond(c: Config)
    requires ValidConfig(c) && Shaped(c, LockedAfterPut(c))
    ensures Put(c, LockedAfterPut(c), 2, -2, 1).0 == LockedAfterSecondPut(c)
  {
    var st2 := LockedAfterPut(c);
    LockedInsert(c, st2, 2, -2, 1);
    assert st2.nodes + [Node(2, -2, 1, Alive)] == [Node(1, -1, 1, Alive), Node(2, -2, 1, Alive)];
    assert st2.data[2 := 1] == map[1 := 0, 2 := 1];
  }

  lemma AlreadyRemovedRemove(c: Config)
    requires ValidConfig(c) && Shaped(c, LockedAfterSecondPut(c))
    ensures Remove(c, LockedAfterSecondPut(c), 1) == (LockedAfterRemove(c), Some(-1))
  {
    var st3 := LockedAfterSecondPut(c);
    LockedRemove(c, st3, 1);
    assert MakeRetired(Alive) == Retired;
    assert Unmapping(st3, 1).nodes == st3.nodes[0 := st3.nodes[0].(status := Retired)]
      == [Node(1, -1, 1, Retired), Node(2, -2, 1, Alive)];
    assert st3.nodes[0 := st3.nodes[0].(status := Retired)] == [Node(1, -1, 1, Retired), Node(2, -2, 1, Alive)];
    assert st3.data - {1} == map[2 := 1];
    assert st3.writeBuffer + [RemovalTask(st3.data[1])] == [AddTask(1), RemovalTask(0)];
    assert Some(st3.nodes[st3.data[1]].value) == Some(-1);
    assert Unmapping(st3, 1).(writeBuffer := [AddTask(1), RemovalTask(0)], drainStatus := Required) == LockedAfterRemove(c);
  }

  lemma AlreadyRemovedDrain(c: Config)
    requires ValidConfig(c) && 1 <= c.maximumCapacity && Shaped(c, LockedAfterPut(c)) && Quiet(c, LockedAfterPut(c))
    ensures var r := DrainBuffers(c, LockedAfterRemove(c));
      && r.nodes[0].status == Dead && r.data == map[2 := 1]
      && r.notifications == [Notification(1, -1, Explicit)]
  {
    QuietAlike(c, LockedAfterPut(c), LockedAfterRemove(c));
    RetiredVictimDrain(c, LockedAfterRemove(c));
  }

  /** A removal reported with cause SIZE adds its key to the evicted keys. */
  lemma EvictedAppend(notes: seq<Notification>, k: Key, v: Value)
    ensures Evicted(notes + [Notification(k, v, RemovalCause.Size)]) == Evicted(notes) + [k]
  {
    assert (notes + [Notification(k, v, RemovalCause.Size)])[..|notes|] == notes;
  }

  /** Moving the window of `checkEvict` one entry on. */
  lemma ShiftWindow(order: seq<Id>, keys: seq<Id>, i: nat, before: seq<Key>)
    requires i < |keys| && i < |order|
    ensures (order[i..] + keys[..i])[0] == order[i]
    ensures (order[i..] + keys[..i])[1..] + [keys[i]] == order[i + 1..] + keys[..i + 1]
    ensures (before + order[..i]) + [order[i]] == before + order[..i + 1]
  {
    assert order[..i] + [order[i]] == order[..i + 1];
    assert keys[..i] + [keys[i]] == keys[..i + 1];
    assert (order[i..] + keys[..i])[1..] == order[i + 1..] + keys[..i];
  }

  /** A fresh key put into a settled engine at its maximum evicts the head
      of its window and joins the tail. */
  lemma PutEvictingWindow(c: Config, st: State, w: seq<Id>, next: seq<Id>, k: Id)
    requires Settled(c, st, w) && 0 < |w| == st.maximum && 1 <= c.maximumWeight
    requires k == |st.nodes| && w[1..] + [k] == next
    ensures var p := Put(c, st, k, k, 1).0;
      && Settled(c, p, next) && |p.nodes| == |st.nodes| + 1
      && Evicted(p.notifications) == Evicted(st.notifications) + [w[0]]
      && p.maximum == st.maximum && p.readCount == st.readCount
  {
    PutEvicting(c, st, w, k);
    EvictedAppend(st.notifications, w[0], st.nodes[w[0]].value);
  }

  /** One put of `checkEvict`: the `i`-th fresh key evicts the `i`-th entry of
      the order it started from. */
  lemma PutEvictingNext(c: Config, st: State, order: seq<Id>, keys: seq<Id>, i: nat, before: seq<Key>)
    requires i < |keys| <= |order| == st.maximum && keys[i] == |st.nodes|
    requires Settled(c, st, order[i..] + keys[..i]) && 1 <= c.maximumWeight
    requires Evicted(st.notifications) == before + order[..i]
    ensures var p := Put(c, st, keys[i], keys[i], 1).0;
      && Settled(c, p, order[i + 1..] + keys[..i + 1]) && |p.nodes| == |st.nodes| + 1
      && Evicted(p.notifications) == before + order[..i + 1]
      && p.maximum == st.maximum && p.readCount == st.readCount
  {
    ShiftWindow(order, keys, i, before);
    PutEvictingWindow(c, st, order[i..] + keys[..i], order[i + 1..] + keys[..i + 1], keys[i]);
  }

  /** The handles 0 to `n` - 1, in order. */
  function Upto(n: nat): (r: seq<Id>)
    ensures |r| == n && forall j :: 0 <= j < n ==> r[j] == j
  {
    if n == 0 then [] else Upto(n - 1) + [n - 1]
  }

  /** One put of the first loop of `evict_lru`: key `i`, the next handle,
      below the maximum. */
  lemma PutFreshNext(c: Config, st: State, order: seq<Id>, i: nat, v: Value)
    requires Settled(c, st, order) && |st.nodes| == i && |order| < st.maximum && 1 <= c.maximumWeight
    ensures var p := Put(c, st, i, v, 1).0;
      && Settled(c, p, order + [i]) && |p.nodes| == i + 1 && p.notifications == st.notifications
      && p.maximum == st.maximum && p.readCount == st.readCount
  {
    PutFresh(c, st, order, v);
  }

  /** The `n` handles from `a` on, in order. */
  function From(a: nat, n: nat): (r: seq<Id>)
    ensures |r| == n && forall j :: 0 <= j < n ==> r[j] == a + j
  {
    if n == 0 then [] else From(a, n - 1) + [a + n - 1]
  }

  /** One read of `checkReorder`: the `i`-th of the keys at the head of the
      order is recorded on stripe `s`. */
  lemma SettledGetNext(c: Config, st: State, s: nat, keys: seq<Id>, order: seq<Id>, i: nat)
    requires i < |keys| <= |order| && order[..|keys|] == keys && |keys| <= c.readBufferThreshold
    requires SettledReading(c, st, s, keys[..i], order)
    ensures var g := Get(c, st, keys[i], s);
      && SettledReading(c, g.0, s, keys[..i + 1], order) && g.0.nodes == st.nodes
      && g.0.notifications == st.notifications && g.0.maximum == st.maximum && g.0.readCount == st.readCount
  {
    assert keys[i] == order[..|keys|][i] == order[i];
    SettledGet(c, st, s, keys[..i], order, keys[i]);
    assert keys[..i] + [keys[i]] == keys[..i + 1];
  }
}
