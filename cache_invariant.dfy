/** What the engine keeps true between operations, and why every transition
    of CacheModel keeps it. */
module CacheInvariant {
  import opened NodeStatus
  import opened AccessOrder
  import opened ReadBuffer
  import opened CacheModel

  // ---------------------------------------------------------------------------
  // Weights of orders

  lemma {:induction false} WeightOfConcat(nodes: seq<Node>, a: seq<Id>, b: seq<Id>)
    ensures WeightOf(nodes, a + b) == WeightOf(nodes, a) + WeightOf(nodes, b)
  {
    if a == [] {
      assert a + b == b;
    } else {
      assert (a + b)[1..] == a[1..] + b;
      WeightOfConcat(nodes, a[1..], b);
    }
  }

  lemma WeightOfAppend(nodes: seq<Node>, s: seq<Id>, x: Id)
    ensures WeightOf(nodes, s + [x]) == WeightOf(nodes, s) + WeightAt(nodes, x)
  {
    WeightOfConcat(nodes, s, [x]);
    assert WeightOf(nodes, [x]) == WeightAt(nodes, x) + WeightOf(nodes, [x][1..]);
  }

  /** Unlinking a node takes exactly its weight out of the order's weight. */
  lemma {:induction false} WeightOfWithout(nodes: seq<Node>, s: seq<Id>, x: Id)
    requires Distinct(s)
    ensures WeightOf(nodes, Without(s, x)) + (if x in s then WeightAt(nodes, x) else 0) == WeightOf(nodes, s)
  {
    if s != [] {
      DistinctTail(s);
      WeightOfWithout(nodes, s[1..], x);
      if s[0] != x {
        var t := Without(s[1..], x);
        assert Without(s, x) == [s[0]] + t;
        assert ([s[0]] + t)[1..] == t;
      }
    }
  }

  /** An access keeps the order's weight. */
  lemma WeightOfMoveToTail(nodes: seq<Node>, s: seq<Id>, x: Id)
    requires Distinct(s)
    ensures WeightOf(nodes, MoveToTail(s, x)) == WeightOf(nodes, s)
  {
    if x in s {
      WeightOfWithout(nodes, s, x);
      WeightOfAppend(nodes, Without(s, x), x);
    }
  }

  lemma {:induction false} WeightOfApplyAccesses(nodes: seq<Node>, s: seq<Id>, xs: seq<Id>)
    requires Distinct(s)
    ensures WeightOf(nodes, ApplyAccesses(s, xs)) == WeightOf(nodes, s)
    decreases |xs|
  {
    if xs != [] {
      WeightOfMoveToTail(nodes, s, xs[0]);
      WeightOfApplyAccesses(nodes, MoveToTail(s, xs[0]), xs[1..]);
    }
  }

  /** The order's weight depends only on the weights of its own nodes. */
  lemma {:induction false} WeightOfSameWeights(a: seq<Node>, b: seq<Node>, s: seq<Id>)
    requires forall n :: n in s ==> WeightAt(a, n) == WeightAt(b, n)
    ensures WeightOf(a, s) == WeightOf(b, s)
  {
    if s != [] {
      WeightOfSameWeights(a, b, s[1..]);
    }
  }

  /** Reweighing a linked node changes the order's weight by the difference. */
  lemma WeightOfReweigh(nodes: seq<Node>, s: seq<Id>, n: Id, nd: Node)
    requires Distinct(s) && n < |nodes| && n in s
    ensures WeightOf(nodes[n := nd], s) == WeightOf(nodes, s) - nodes[n].weight + nd.weight
  {
    var t := Without(s, n);
    WeightOfWithout(nodes, s, n);
    WeightOfWithout(nodes[n := nd], s, n);
    WeightOfSameWeights(nodes, nodes[n := nd], t);
  }

  /** A status change keeps every weight. */
  lemma WeightOfRestatus(nodes: seq<Node>, s: seq<Id>, n: Id, st: Status)
    requires n < |nodes|
    ensures WeightOf(nodes[n := nodes[n].(status := st)], s) == WeightOf(nodes, s)
  {
    WeightOfSameWeights(nodes, nodes[n := nodes[n].(status := st)], s);
  }

  // ---------------------------------------------------------------------------
  // The invariant

  /** Every key maps to an ALIVE node carrying that key. */
  predicate KeysMapped(st: State)
  {
    forall k :: k in st.data ==>
      st.data[k] < |st.nodes| && st.nodes[st.data[k]].key == k && st.nodes[st.data[k]].status == Alive
  }

  /** The order links each node at most once and never a DEAD one. */
  predicate Linked(st: State)
  {
    && Distinct(st.order)
    && forall n :: n in st.order ==> n < |st.nodes| && st.nodes[n].status != Dead
  }

  /** A linked ALIVE node is the one its key maps to. */
  predicate LinkedAliveMapped(st: State)
  {
    forall n :: n in st.order && n < |st.nodes| && st.nodes[n].status == Alive ==>
      st.nodes[n].key in st.data && st.data[st.nodes[n].key] == n
  }

  /** What the pending tasks `w` still owe the order: a mapped node is linked or
      has its add queued; an add is only queued for the node its key maps to,
      while it is ALIVE; a removal only for a node that is no longer ALIVE; and
      every RETIRED node has its removal queued. */
  predicate Pending(c: Config, st: State, w: seq<Task>)
  {
    && (forall k :: k in st.data ==> st.data[k] in st.order || AddTask(st.data[k]) in w)
    && (forall t :: t in w && !t.ProbeTask? ==> t.node < |st.nodes|)
    && (forall t :: t in w && t.AddTask? && t.node < |st.nodes| && st.nodes[t.node].status == Alive ==>
          st.nodes[t.node].key in st.data && st.data[st.nodes[t.node].key] == t.node)
    && (forall t :: t in w && t.RemovalTask? && t.node < |st.nodes| ==> st.nodes[t.node].status != Alive)
    && (forall t :: t in w && t.UpdateTask? ==> t.weight <= c.maximumWeight)
    && (forall n :: 0 <= n < |st.nodes| && st.nodes[n].status == Retired ==> RemovalTask(n) in w)
  }

  /** Weights are what the weigher can return and the maximum is capped. */
  predicate Weighed(c: Config, st: State)
  {
    && st.maximum <= c.maximumCapacity
    && forall n :: 0 <= n < |st.nodes| ==> st.nodes[n].weight <= c.maximumWeight
  }

  /** The part of the weighted size not accounted for by linked nodes. Every
      transition keeps it; it is zero unless the counter was set from outside. */
  function Excess(st: State): int
  {
    st.weightedSize - WeightOf(st.nodes, st.order)
  }

  predicate Balanced(st: State)
  {
    0 <= Excess(st) <= st.maximum
  }

  /** The invariant while the tasks `w` are still to run (eviction may be due). */
  predicate Core(c: Config, st: State, w: seq<Task>)
  {
    KeysMapped(st) && Linked(st) && LinkedAliveMapped(st) && Pending(c, st, w) && Weighed(c, st) && Balanced(st)
  }

  /** The invariant between tasks: also within the maximum. */
  predicate InvPending(c: Config, st: State, w: seq<Task>)
  {
    Core(c, st, w) && st.weightedSize <= st.maximum
  }

  /** The invariant between operations. */
  predicate Inv(c: Config, st: State)
  {
    ValidConfig(c) && Shaped(c, st) && InvPending(c, st, st.writeBuffer)
  }

  // ---------------------------------------------------------------------------
  // Eviction keeps the invariant

  lemma EvictHeadCore(c: Config, st: State, w: seq<Task>)
    requires Core(c, st, w) && st.order != []
    ensures Core(c, EvictHead(st), w) && Excess(EvictHead(st)) == Excess(st)
  {
    EvictHeadMapped(c, st, w);
    EvictHeadLinked(c, st, w);
  }

  /** Evicting the head keeps every key mapped to an ALIVE node and every
      pending task owed. */
  lemma EvictHeadMapped(c: Config, st: State, w: seq<Task>)
    requires Core(c, st, w) && st.order != []
    ensures var r := EvictHead(st); KeysMapped(r) && LinkedAliveMapped(r) && Pending(c, r, w)
  {
    var v := st.order[0];
    var r := EvictHead(st);
    DistinctTail(st.order);
    assert v in st.order;
    if st.nodes[v].status == Alive {
      forall k | k in r.data ensures r.data[k] < |r.nodes| && r.nodes[r.data[k]].key == k && r.nodes[r.data[k]].status == Alive {
        assert st.data[k] != v;
      }
      forall k | k in r.data ensures r.data[k] in r.order || AddTask(r.data[k]) in w {
        assert st.data[k] != v;
      }
    }
  }

  /** Evicting the head keeps the order linked and the weights balanced. */
  lemma EvictHeadLinked(c: Config, st: State, w: seq<Task>)
    requires Core(c, st, w) && st.order != []
    ensures var r := EvictHead(st); Linked(r) && Weighed(c, r) && Balanced(r) && Excess(r) == Excess(st)
  {
    var v := st.order[0];
    var r := EvictHead(st);
    DistinctTail(st.order);
    assert v in st.order;
    if st.nodes[v].status == Alive {
      WeightOfRestatus(st.nodes, r.order, v, Dead);
    }
    assert r.order == st.order[1..];
    forall n | n in r.order ensures n < |r.nodes| && r.nodes[n].status != Dead {
      assert n in st.order && n != v;
    }
    assert WeightOf(st.nodes, st.order) == WeightAt(st.nodes, v) + WeightOf(st.nodes, st.order[1..]);
  }

  /** Eviction keeps the invariant and ends within the maximum. */
  lemma {:induction false} EvictCore(c: Config, st: State, w: seq<Task>)
    requires Core(c, st, w)
    ensures Core(c, Evict(st), w) && Evict(st).weightedSize <= st.maximum
    ensures Excess(Evict(st)) == Excess(st)
    decreases |st.order|
  {
    if st.weightedSize > st.maximum && st.order != [] {
      EvictHeadCore(c, st, w);
      EvictCore(c, EvictHead(st), w);
    } else if st.order == [] {
      assert WeightOf(st.nodes, st.order) == 0;
    }
  }

  // ---------------------------------------------------------------------------
  // Each write task keeps the invariant

  lemma DistinctAppend(s: seq<Id>, x: Id)
    requires Distinct(s) && x !in s
    ensures Distinct(s + [x])
  {
  }

  /** A task that does nothing may be dropped from the pending ones. */
  lemma SkipTaskInv(c: Config, st: State, t: Task, ts: seq<Task>)
    requires InvPending(c, st, [t] + ts)
    requires t.AddTask? ==> forall k :: k in st.data && st.data[k] == t.node ==> t.node in st.order
    requires t.RemovalTask? ==> st.nodes[t.node].status != Retired
    ensures InvPending(c, st, ts)
  {
    forall k | k in st.data ensures st.data[k] in st.order || AddTask(st.data[k]) in ts {
      if st.data[k] !in st.order {
        assert AddTask(st.data[k]) in [t] + ts;
      }
    }
    forall n | 0 <= n < |st.nodes| && st.nodes[n].status == Retired ensures RemovalTask(n) in ts {
      assert RemovalTask(n) in [t] + ts;
    }
  }

  lemma AddedCore(c: Config, st: State, n: Id, ts: seq<Task>)
    requires InvPending(c, st, [AddTask(n)] + ts) && AddApplies(st, n)
    ensures Core(c, Added(st, n), ts) && Excess(Added(st, n)) == Excess(st)
  {
    var r := Added(st, n);
    assert AddTask(n) in [AddTask(n)] + ts;
    DistinctAppend(st.order, n);
    WeightOfAppend(st.nodes, st.order, n);
    forall k | k in r.data ensures r.data[k] in r.order || AddTask(r.data[k]) in ts {
      if st.data[k] != n && st.data[k] !in st.order {
        assert AddTask(st.data[k]) in [AddTask(n)] + ts;
      }
    }
    forall m | 0 <= m < |st.nodes| && st.nodes[m].status == Retired ensures RemovalTask(m) in ts {
      assert RemovalTask(m) in [AddTask(n)] + ts;
    }
  }

  lemma UpdatedCore(c: Config, st: State, n: Id, w: nat, ts: seq<Task>)
    requires InvPending(c, st, [UpdateTask(n, w)] + ts) && UpdateApplies(st, n)
    ensures Core(c, Updated(st, n, w), ts) && Excess(Updated(st, n, w)) == Excess(st)
  {
    var r := Updated(st, n, w);
    assert UpdateTask(n, w) in [UpdateTask(n, w)] + ts;
    var nodes' := st.nodes[n := st.nodes[n].(weight := w)];
    WeightOfReweigh(st.nodes, st.order, n, st.nodes[n].(weight := w));
    WeightOfMoveToTail(nodes', st.order, n);
    forall k | k in r.data ensures r.data[k] in r.order || AddTask(r.data[k]) in ts {
      if st.data[k] !in st.order {
        assert AddTask(st.data[k]) in [UpdateTask(n, w)] + ts;
      }
    }
    forall m | 0 <= m < |st.nodes| && st.nodes[m].status == Retired ensures RemovalTask(m) in ts {
      assert RemovalTask(m) in [UpdateTask(n, w)] + ts;
    }
  }

  lemma RemovedInv(c: Config, st: State, n: Id, ts: seq<Task>)
    requires InvPending(c, st, [RemovalTask(n)] + ts) && n < |st.nodes|
    ensures InvPending(c, Removed(st, n), ts) && Excess(Removed(st, n)) == Excess(st)
  {
    assert RemovalTask(n) in [RemovalTask(n)] + ts;
    if st.nodes[n].status == Dead {
      SkipTaskInv(c, st, RemovalTask(n), ts);
    } else {
      var r := Removed(st, n);
      WeightOfWithout(st.nodes, st.order, n);
      WeightOfRestatus(st.nodes, r.order, n, Dead);
      forall k | k in r.data ensures r.data[k] != n && (r.data[k] in r.order || AddTask(r.data[k]) in ts) {
        if st.data[k] !in st.order {
          assert AddTask(st.data[k]) in [RemovalTask(n)] + ts;
        }
      }
      forall m | 0 <= m < |r.nodes| && r.nodes[m].status == Retired ensures RemovalTask(m) in ts {
        assert RemovalTask(m) in [RemovalTask(n)] + ts;
      }
      forall t | t in ts ensures t in [RemovalTask(n)] + ts {
      }
    }
  }

  /** Running the oldest pending task keeps the invariant for the rest. */
  lemma ApplyTaskInv(c: Config, st: State, t: Task, ts: seq<Task>)
    requires InvPending(c, st, [t] + ts)
    ensures InvPending(c, ApplyTask(st, t), ts) && Excess(ApplyTask(st, t)) == Excess(st)
  {
    assert t in [t] + ts;
    match t
    case AddTask(n) =>
      if AddApplies(st, n) {
        AddedCore(c, st, n, ts);
        EvictCore(c, Added(st, n), ts);
      } else {
        SkipTaskInv(c, st, t, ts);
      }
    case UpdateTask(n, w) =>
      if UpdateApplies(st, n) {
        UpdatedCore(c, st, n, w, ts);
        EvictCore(c, Updated(st, n, w), ts);
      } else {
        SkipTaskInv(c, st, t, ts);
      }
    case RemovalTask(n) =>
      RemovedInv(c, st, n, ts);
    case ProbeTask(_) =>
      SkipTaskInv(c, st, t, ts);
  }

  lemma {:induction false} ApplyTasksInv(c: Config, st: State, ts: seq<Task>)
    requires InvPending(c, st, ts)
    ensures InvPending(c, ApplyTasks(st, ts), []) && Excess(ApplyTasks(st, ts)) == Excess(st)
    decreases |ts|
  {
    if ts != [] {
      assert ts == [ts[0]] + ts[1..];
      ApplyTaskInv(c, st, ts[0], ts[1..]);
      ApplyTasksInv(c, ApplyTask(st, ts[0]), ts[1..]);
    }
  }

  // ---------------------------------------------------------------------------
  // Draining keeps the invariant

  lemma {:induction false} DrainReadBuffersWeight(c: Config, st: State, s: nat)
    requires ValidConfig(c) && Shaped(c, st) && s <= c.numberOfReadBuffers && Distinct(st.order)
    ensures WeightOf(st.nodes, DrainReadBuffersFrom(c, st, s).order) == WeightOf(st.nodes, st.order)
    decreases c.numberOfReadBuffers - s
  {
    if s < c.numberOfReadBuffers {
      var d := DrainSlots(st.readBuffers[s], st.readCount[s], c.readBufferDrainThreshold);
      WeightOfApplyAccesses(st.nodes, st.order, d.events);
      DrainReadBuffersWeight(c, DrainReadBuffer(c, st, s), s + 1);
    }
  }

  /** Replaying read events only reorders: the invariant and the excess stay. */
  lemma DrainReadBuffersInv(c: Config, st: State, w: seq<Task>, s: nat)
    requires ValidConfig(c) && Shaped(c, st) && s <= c.numberOfReadBuffers && InvPending(c, st, w)
    ensures InvPending(c, DrainReadBuffersFrom(c, st, s), w)
    ensures Excess(DrainReadBuffersFrom(c, st, s)) == Excess(st)
  {
    DrainReadBuffersWeight(c, st, s);
  }

  lemma DrainWriteBufferInv(c: Config, st: State)
    requires Inv(c, st)
    ensures Inv(c, DrainWriteBuffer(st)) && Excess(DrainWriteBuffer(st)) == Excess(st)
  {
    ApplyTasksInv(c, st.(writeBuffer := []), st.writeBuffer);
  }

  /** Once the write buffer is taken, its tasks are still pending. */
  lemma TakenPending(c: Config, st: State)
    requires Inv(c, st)
    ensures InvPending(c, st.(writeBuffer := []), st.writeBuffer)
  {
  }

  lemma TasksSplit(ts: seq<Task>, i: nat, next: nat)
    requires i < |ts| && next == i + 1
    ensures ts[i..] == [ts[i]] + ts[next..]
  {
  }

  lemma DrainBuffersInv(c: Config, st: State)
    requires Inv(c, st)
    ensures Inv(c, DrainBuffers(c, st)) && Excess(DrainBuffers(c, st)) == Excess(st)
  {
    DrainWriteBufferInv(c, st);
    DrainReadBuffersInv(c, DrainWriteBuffer(st), [], 0);
  }

  lemma TryToDrainBuffersInv(c: Config, st: State)
    requires Inv(c, st)
    ensures Inv(c, TryToDrainBuffers(c, st)) && Excess(TryToDrainBuffers(c, st)) == Excess(st)
  {
    if !st.lockHeld {
      DrainBuffersInv(c, st.(drainStatus := Processing));
    }
  }

  /** Queuing a task that the invariant allows, then draining, keeps the invariant. */
  lemma AfterWriteInv(c: Config, st: State, t: Task)
    requires ValidConfig(c) && Shaped(c, st) && InvPending(c, st, st.writeBuffer + [t])
    ensures Inv(c, AfterWrite(c, st, t)) && Excess(AfterWrite(c, st, t)) == Excess(st)
  {
    TryToDrainBuffersInv(c, st.(writeBuffer := st.writeBuffer + [t], drainStatus := Required));
  }

  /** The invariant does not look at the drain status. */
  lemma StatusInv(c: Config, st: State, w: seq<Task>, x: DrainStatus)
    requires ValidConfig(c) && Shaped(c, st) && InvPending(c, st, w)
    ensures Shaped(c, st.(drainStatus := x)) && InvPending(c, st.(drainStatus := x), w)
    ensures Excess(st.(drainStatus := x)) == Excess(st)
  {
    WeightOfSameWeights(st.nodes, st.nodes, st.order);
  }

  /** Queueing a task the invariant already allows, and marking the status. */
  lemma QueuedInv(c: Config, st: State, t: Task, x: DrainStatus)
    requires ValidConfig(c) && Shaped(c, st) && InvPending(c, st, st.writeBuffer + [t])
    ensures Inv(c, st.(writeBuffer := st.writeBuffer + [t], drainStatus := x))
    ensures Excess(st.(writeBuffer := st.writeBuffer + [t], drainStatus := x)) == Excess(st)
  {
    WeightOfSameWeights(st.nodes, st.nodes, st.order);
  }

  /** The invariant does not look at the read side, the drain status or the lock. */
  lemma SameStoreInv(c: Config, st: State, st': State)
    requires Inv(c, st) && Shaped(c, st') && SameStore(st', st) && st'.order == st.order
    ensures Inv(c, st') && Excess(st') == Excess(st)
  {
  }

  /** Setting the counter anywhere between the linked weight and the maximum
      keeps the invariant. */
  lemma CounterSetInv(c: Config, st: State, w: int)
    requires Inv(c, st) && WeightOf(st.nodes, st.order) <= w <= st.maximum
    ensures Inv(c, st.(weightedSize := w))
  {
  }

  lemma RecordReadInv(c: Config, st: State, n: Id, s: nat)
    requires Inv(c, st) && s < c.numberOfReadBuffers
    ensures Inv(c, RecordRead(c, st, n, s)) && Excess(RecordRead(c, st, n, s)) == Excess(st)
  {
  }

  lemma AfterReadInv(c: Config, st: State, n: Id, s: nat)
    requires Inv(c, st) && s < c.numberOfReadBuffers
    ensures Inv(c, AfterRead(c, st, n, s)) && Excess(AfterRead(c, st, n, s)) == Excess(st)
  {
    var st1 := RecordRead(c, st, n, s);
    RecordReadInv(c, st, n, s);
    if st1.drainStatus.ShouldDrainBuffers(!ReadBufferFull(c, st, s, st.writeCount[s])) {
      TryToDrainBuffersInv(c, st1);
    }
  }

  /** Tasks queued so far stay allowed when a task is queued behind them. */
  lemma PendingGrow(c: Config, st: State, w: seq<Task>, t: Task)
    requires Pending(c, st, w)
    requires !t.ProbeTask? ==> t.node < |st.nodes|
    requires t.AddTask? && st.nodes[t.node].status == Alive ==>
      st.nodes[t.node].key in st.data && st.data[st.nodes[t.node].key] == t.node
    requires t.RemovalTask? ==> st.nodes[t.node].status != Alive
    requires t.UpdateTask? ==> t.weight <= c.maximumWeight
    ensures Pending(c, st, w + [t])
  {
  }

  // ---------------------------------------------------------------------------
  // The map operations keep the invariant

  lemma NewNodeInv(c: Config, st: State, k: Key, v: Value, w: nat)
    requires Inv(c, st) && w <= c.maximumWeight
    ensures Inv(c, NewNode(st, k, v, w).0) && Excess(NewNode(st, k, v, w).0) == Excess(st)
  {
    var r := NewNode(st, k, v, w).0;
    WeightOfSameWeights(st.nodes, r.nodes, st.order);
  }

  lemma InsertInv(c: Config, st: State, k: Key, v: Value, w: nat)
    requires Inv(c, st) && k !in st.data && w <= c.maximumWeight
    ensures Inv(c, Insert(c, st, k, v, w)) && Excess(Insert(c, st, k, v, w)) == Excess(st)
  {
    MappingPending(c, st, k, v, w);
    AfterWriteInv(c, Mapping(st, k, v, w), AddTask(|st.nodes|));
  }

  /** A freshly mapped node may queue its add task. */
  lemma MappingPending(c: Config, st: State, k: Key, v: Value, w: nat)
    requires Inv(c, st) && k !in st.data && w <= c.maximumWeight
    ensures var st1 := Mapping(st, k, v, w);
      Shaped(c, st1) && InvPending(c, st1, st1.writeBuffer + [AddTask(|st.nodes|)]) && Excess(st1) == Excess(st)
  {
    var n := |st.nodes|;
    var st1 := Mapping(st, k, v, w);
    WeightOfSameWeights(st.nodes, st1.nodes, st.order);
    assert Pending(c, st1, st.writeBuffer + [AddTask(n)]) by {
      forall k' | k' in st1.data ensures st1.data[k'] in st1.order || AddTask(st1.data[k']) in st.writeBuffer + [AddTask(n)] {
        if k' != k && st.data[k'] !in st.order {
          assert AddTask(st.data[k']) in st.writeBuffer;
        }
      }
      forall t | t in st.writeBuffer + [AddTask(n)] && t.AddTask? && t.node < |st1.nodes| && st1.nodes[t.node].status == Alive
        ensures st1.nodes[t.node].key in st1.data && st1.data[st1.nodes[t.node].key] == t.node
      {
        if t != AddTask(n) {
          assert t in st.writeBuffer;
          assert st.nodes[t.node].key != k;
        }
      }
    }
  }

  lemma OverwriteInv(c: Config, st: State, k: Key, v: Value, w: nat)
    requires Inv(c, st) && k in st.data && w <= c.maximumWeight
    ensures Inv(c, Overwrite(c, st, k, v, w)) && Excess(Overwrite(c, st, k, v, w)) == Excess(st)
  {
    RevaluedPending(c, st, st.data[k], v, w);
    AfterWriteInv(c, Revalued(st, st.data[k], v), UpdateTask(st.data[k], w));
  }

  /** A node whose value was replaced may queue its update task. */
  lemma RevaluedPending(c: Config, st: State, n: Id, v: Value, w: nat)
    requires Inv(c, st) && n < |st.nodes| && w <= c.maximumWeight
    ensures var st1 := Revalued(st, n, v);
      Shaped(c, st1) && InvPending(c, st1, st1.writeBuffer + [UpdateTask(n, w)]) && Excess(st1) == Excess(st)
  {
    var st1 := Revalued(st, n, v);
    WeightOfSameWeights(st.nodes, st1.nodes, st.order);
    PendingGrow(c, st1, st.writeBuffer, UpdateTask(n, w));
  }

  lemma RemoveInv(c: Config, st: State, k: Key)
    requires Inv(c, st)
    ensures Inv(c, Remove(c, st, k).0) && Excess(Remove(c, st, k).0) == Excess(st)
  {
    if k in st.data {
      UnmappingPending(c, st, k);
      AfterWriteInv(c, Unmapping(st, k), RemovalTask(st.data[k]));
    }
  }

  /** A retired node may queue its removal task. */
  lemma UnmappingPending(c: Config, st: State, k: Key)
    requires Inv(c, st) && k in st.data
    ensures var st1 := Unmapping(st, k);
      Shaped(c, st1) && InvPending(c, st1, st1.writeBuffer + [RemovalTask(st.data[k])]) && Excess(st1) == Excess(st)
  {
    var n := st.data[k];
    var st1 := Unmapping(st, k);
    WeightOfRestatus(st.nodes, st.order, n, Retired);
    assert Pending(c, st1, st.writeBuffer + [RemovalTask(n)]) by {
      forall k' | k' in st1.data ensures st1.data[k'] in st1.order || AddTask(st1.data[k']) in st.writeBuffer + [RemovalTask(n)] {
        if st.data[k'] !in st.order {
          assert AddTask(st.data[k']) in st.writeBuffer;
        }
      }
    }
  }

  lemma InitialInv(c: Config, maximumWeight: nat)
    requires ValidConfig(c)
    ensures Inv(c, Initial(c, maximumWeight)) && Excess(Initial(c, maximumWeight)) == 0
  {
  }

  lemma GetInv(c: Config, st: State, k: Key, s: nat)
    requires Inv(c, st) && s < c.numberOfReadBuffers
    ensures Inv(c, Get(c, st, k, s).0) && Excess(Get(c, st, k, s).0) == Excess(st)
  {
    if k in st.data {
      AfterReadInv(c, st, st.data[k], s);
    }
  }

  lemma PutInv(c: Config, st: State, k: Key, v: Value, w: nat)
    requires Inv(c, st) && w <= c.maximumWeight
    ensures Inv(c, Put(c, st, k, v, w).0) && Excess(Put(c, st, k, v, w).0) == Excess(st)
  {
    if k in st.data {
      OverwriteInv(c, st, k, v, w);
    } else {
      InsertInv(c, st, k, v, w);
    }
  }

  lemma PutIfAbsentInv(c: Config, st: State, k: Key, v: Value, w: nat, s: nat)
    requires Inv(c, st) && w <= c.maximumWeight && s < c.numberOfReadBuffers
    ensures Inv(c, PutIfAbsent(c, st, k, v, w, s).0) && Excess(PutIfAbsent(c, st, k, v, w, s).0) == Excess(st)
  {
    if k in st.data {
      AfterReadInv(c, st, st.data[k], s);
    } else {
      InsertInv(c, st, k, v, w);
    }
  }

  lemma ReplaceInv(c: Config, st: State, k: Key, v: Value, w: nat)
    requires Inv(c, st) && w <= c.maximumWeight
    ensures Inv(c, Replace(c, st, k, v, w).0) && Excess(Replace(c, st, k, v, w).0) == Excess(st)
  {
    if k in st.data {
      OverwriteInv(c, st, k, v, w);
    }
  }

  lemma ReplaceConditionallyInv(c: Config, st: State, k: Key, expected: Value, v: Value, w: nat)
    requires Inv(c, st) && w <= c.maximumWeight
    ensures Inv(c, ReplaceConditionally(c, st, k, expected, v, w).0)
    ensures Excess(ReplaceConditionally(c, st, k, expected, v, w).0) == Excess(st)
  {
    if k in st.data && st.nodes[st.data[k]].value == expected {
      OverwriteInv(c, st, k, v, w);
    }
  }

  // ---------------------------------------------------------------------------
  // Consequences

  lemma WeightAtMost(nodes: seq<Node>, s: seq<Id>, x: Id)
    requires Distinct(s) && x in s
    ensures WeightAt(nodes, x) <= WeightOf(nodes, s)
  {
    WeightOfWithout(nodes, s, x);
  }

  /** The weighted size stays within a signed 64-bit counter: between tasks it
      is at most MAXIMUM_CAPACITY, and the one addition a task makes before it
      evicts exceeds that by at most one weight, which still fits. */
  lemma CounterInLongRange(c: Config, st: State, t: Task, ts: seq<Task>)
    requires ValidConfig(c) && InvPending(c, st, [t] + ts)
    ensures 0 <= st.weightedSize <= c.maximumCapacity <= LONG_MAX
    ensures t.AddTask? && AddApplies(st, t.node) ==> Added(st, t.node).weightedSize <= LONG_MAX
    ensures t.UpdateTask? && UpdateApplies(st, t.node) ==>
      0 <= Updated(st, t.node, t.weight).weightedSize <= LONG_MAX
  {
    assert t in [t] + ts;
    if t.UpdateTask? && UpdateApplies(st, t.node) {
      WeightAtMost(st.nodes, st.order, t.node);
    }
  }

  /** After a drain (nothing pending) the map and the access order agree: the
      map has as many entries as the order, the order reports exactly the map's
      keys, every linked node is ALIVE and no node is left RETIRED. */
  lemma DrainedConsistent(c: Config, st: State)
    requires Inv(c, st) && st.writeBuffer == []
    ensures |st.data| == |st.order|
    ensures forall k :: k in st.data <==> k in KeysOf(st.nodes, st.order)
    ensures forall n :: n in st.order ==> st.nodes[n].status == Alive
    ensures forall n :: 0 <= n < |st.nodes| ==> st.nodes[n].status != Retired
  {
    DrainedAlive(c, st);
    DrainedKeys(st);
  }

  /** With nothing pending, every linked node is ALIVE and none is RETIRED. */
  lemma DrainedAlive(c: Config, st: State)
    requires Linked(st) && Pending(c, st, [])
    ensures forall n :: n in st.order ==> st.nodes[n].status == Alive
    ensures forall n :: 0 <= n < |st.nodes| ==> st.nodes[n].status != Retired
  {
    forall n | n in st.order ensures st.nodes[n].status == Alive {
      assert RemovalTask(n) !in [];
    }
  }

  /** When the linked nodes are exactly the mapped ones, the keys in access
      order are the map's keys, each once. */
  lemma DrainedKeys(st: State)
    requires KeysMapped(st) && Linked(st) && LinkedAliveMapped(st)
    requires forall k :: k in st.data ==> st.data[k] in st.order
    requires forall n :: n in st.order ==> st.nodes[n].status == Alive
    ensures |st.data| == |st.order|
    ensures forall k :: k in st.data <==> k in KeysOf(st.nodes, st.order)
  {
    var ks := KeysOf(st.nodes, st.order);
    forall k | k in st.data ensures k in ks {
      var i :| 0 <= i < |st.order| && st.order[i] == st.data[k];
      assert ks[i] == k;
    }
    forall i | 0 <= i < |ks| ensures ks[i] in st.data {
      assert st.order[i] in st.order;
    }
    forall i, j | 0 <= i < j < |ks| ensures ks[i] != ks[j] {
      assert st.order[i] in st.order && st.order[j] in st.order;
    }
    DistinctCard(ks);
    KeySetOf(st.data, ks);
  }

  lemma KeySetOf(data: map<Key, Id>, ks: seq<Key>)
    requires forall k :: k in data ==> k in ks
    requires forall i :: 0 <= i < |ks| ==> ks[i] in data
    ensures data.Keys == set x | x in ks
  {
    var keys := set x | x in ks;
    forall x | x in keys ensures x in data.Keys {
      var i :| 0 <= i < |ks| && ks[i] == x;
    }
    forall x | x in data.Keys ensures x in keys {
    }
  }

  lemma {:induction false} DistinctCard(s: seq<Key>)
    requires forall i, j :: 0 <= i < j < |s| ==> s[i] != s[j]
    ensures |set x | x in s| == |s|
  {
    if s != [] {
      var t := s[..|s| - 1];
      DistinctCard(t);
      assert (set x | x in s) == (set x | x in t) + {s[|s| - 1]};
      assert s[|s| - 1] !in t;
    }
  }
}
