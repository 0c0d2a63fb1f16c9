/** The bounded eviction engine of the cache as a state and pure transition
    functions. The class in bounded_local_cache.dfy is proved to change its
    fields exactly as these functions say; cache_invariant.dfy proves what the
    functions preserve. */
module CacheModel {
  import opened NodeStatus
  import opened AccessOrder
  import opened ReadBuffer

  type Key = int
  type Value = int

  /** Largest value of a signed 64-bit counter (Long.MAX_VALUE). */
  const LONG_MAX: int := 0x7FFF_FFFF_FFFF_FFFF

  /** The engine's constants. Their values are not fixed here, only the
      relations between them that the engine relies on. */
  datatype Config = Config(
    readBufferThreshold: nat,       // READ_BUFFER_THRESHOLD: pending reads that force a drain
    readBufferDrainThreshold: nat,  // most events one drain takes from a stripe
    readBufferSize: nat,            // slots per stripe
    numberOfReadBuffers: nat,       // stripes
    maximumCapacity: nat,           // MAXIMUM_CAPACITY: the cap on the maximum weight
    maximumWeight: nat)             // largest weight the weigher returns (Integer.MAX_VALUE)

  predicate ValidConfig(c: Config)
  {
    && 0 < c.readBufferThreshold < c.readBufferDrainThreshold <= c.readBufferSize
    && 0 < c.numberOfReadBuffers
    && c.maximumCapacity + c.maximumWeight <= LONG_MAX
  }

  /** A cache entry; `weight` is the weight currently counted in the weighted size. */
  datatype Node = Node(key: Key, value: Value, weight: nat, status: Status)

  /** A deferred write, replayed against the access order by a drain. A probe
      stands for an arbitrary task handed to `afterWrite`; running it records its tag. */
  datatype Task = AddTask(node: Id) | UpdateTask(node: Id, weight: nat) | RemovalTask(node: Id) | ProbeTask(tag: nat)

  datatype RemovalCause = Explicit | Replaced | Collected | Expired | Size

  /** One call of the removal listener. */
  datatype Notification = Notification(key: Key, value: Value, cause: RemovalCause)

  /** The keys evicted for size, in the order the listener heard of them; the
      statistics' eviction count is their number. */
  function Evicted(notes: seq<Notification>): (keys: seq<Key>)
    ensures |keys| <= |notes|
    ensures notes != [] ==>
      keys == Evicted(notes[..|notes| - 1]) + (if notes[|notes| - 1].cause == Size then [notes[|notes| - 1].key] else [])
  {
    if notes == [] then []
    else
      var last := notes[|notes| - 1];
      Evicted(notes[..|notes| - 1]) + (if last.cause == Size then [last.key] else [])
  }

  datatype DrainStatus = Idle | Required | Processing {
    /** Whether a read should try to drain: a read that could be delayed does
        not while IDLE; anything does when REQUIRED; nothing does while PROCESSING. */
    predicate ShouldDrainBuffers(delayable: bool)
    {
      match this
      case Idle => !delayable
      case Required => true
      case Processing => false
    }
  }

  datatype Option<T> = None | Some(value: T)

  /** The whole engine: the backing map, the node arena, the access order, the
      write buffer, the weighted size and its maximum, the listener's calls, the
      tags of probe tasks that ran, the striped read buffers with their
      counters, the drain status and whether the eviction lock is held. */
  datatype State = State(
    data: map<Key, Id>,
    nodes: seq<Node>,
    order: seq<Id>,
    writeBuffer: seq<Task>,
    weightedSize: int,
    maximum: nat,
    notifications: seq<Notification>,
    ran: seq<nat>,
    readBuffers: seq<seq<Slot>>,
    writeCount: seq<nat>,
    readCount: seq<nat>,
    drainAt: seq<nat>,
    drainStatus: DrainStatus,
    lockHeld: bool)

  predicate Shaped(c: Config, st: State)
  {
    && |st.readBuffers| == c.numberOfReadBuffers
    && |st.writeCount| == c.numberOfReadBuffers
    && |st.readCount| == c.numberOfReadBuffers
    && |st.drainAt| == c.numberOfReadBuffers
    && forall s :: 0 <= s < |st.readBuffers| ==> |st.readBuffers[s]| == c.readBufferSize
  }

  /** Every key maps to a node of the arena. */
  predicate Mapped(st: State)
  {
    forall k :: k in st.data ==> st.data[k] < |st.nodes|
  }

  /** The read buffers, their counters, the drain status and the lock are the same. */
  predicate SameReadSide(a: State, b: State)
  {
    && a.readBuffers == b.readBuffers && a.writeCount == b.writeCount
    && a.readCount == b.readCount && a.drainAt == b.drainAt
    && a.drainStatus == b.drainStatus && a.lockHeld == b.lockHeld
  }

  /** Everything outside the access order and the read side is the same. */
  predicate SameStore(a: State, b: State)
  {
    && a.data == b.data && a.nodes == b.nodes && a.writeBuffer == b.writeBuffer
    && a.weightedSize == b.weightedSize && a.maximum == b.maximum
    && a.notifications == b.notifications && a.ran == b.ran
  }

  /** A new, empty engine. The configured maximum weight is capped at MAXIMUM_CAPACITY. */
  function Initial(c: Config, maximumWeight: nat): (st: State)
    ensures Shaped(c, st) && st.data == map[] && st.order == [] && st.writeBuffer == []
    ensures st.maximum <= c.maximumCapacity && st.maximum <= maximumWeight
    ensures st.maximum == maximumWeight || st.maximum == c.maximumCapacity
    ensures forall s :: 0 <= s < c.numberOfReadBuffers ==>
      AllEmpty(st.readBuffers[s]) && st.writeCount[s] == 0 && st.readCount[s] == 0 && st.drainAt[s] == 0
  {
    var n := c.numberOfReadBuffers;
    State(map[], [], [], [], 0, if maximumWeight < c.maximumCapacity then maximumWeight else c.maximumCapacity,
          [], [], seq(n, _ => seq(c.readBufferSize, _ => Empty)), seq(n, _ => 0), seq(n, _ => 0),
          seq(n, _ => 0), Idle, false)
  }

  // ---------------------------------------------------------------------------
  // Weights

  function WeightAt(nodes: seq<Node>, n: Id): nat
  {
    if n < |nodes| then nodes[n].weight else 0
  }

  /** The total weight of the nodes in `s`. */
  function WeightOf(nodes: seq<Node>, s: seq<Id>): nat
  {
    if s == [] then 0 else WeightAt(nodes, s[0]) + WeightOf(nodes, s[1..])
  }

  /** The keys of the nodes in `s`, in order (what iterating the access order reports). */
  function KeysOf(nodes: seq<Node>, s: seq<Id>): (r: seq<Key>)
    ensures |r| == |s|
    ensures forall i :: 0 <= i < |s| && s[i] < |nodes| ==> r[i] == nodes[s[i]].key
  {
    seq(|s|, i requires 0 <= i < |s| => if s[i] < |nodes| then nodes[s[i]].key else 0)
  }

  // ---------------------------------------------------------------------------
  // Eviction and the write tasks

  /** Evicts the least recently used node. An ALIVE victim leaves the map, dies
      and is reported with cause SIZE; a RETIRED one is only unlinked (the
      removal task already queued for it kills it and reports it). */
  function EvictHead(st: State): (r: State)
    requires st.order != []
    ensures r.order == st.order[1..]
    ensures r.weightedSize == st.weightedSize - WeightAt(st.nodes, st.order[0])
    ensures SameReadSide(r, st) && r.writeBuffer == st.writeBuffer && r.maximum == st.maximum
    ensures r.ran == st.ran && |r.nodes| == |st.nodes|
    ensures var v := st.order[0];
      if v < |st.nodes| && st.nodes[v].status == Alive
      then r.nodes[v].status == Dead && r.data == st.data - {st.nodes[v].key}
        && r.notifications == st.notifications + [Notification(st.nodes[v].key, st.nodes[v].value, Size)]
      else r.nodes == st.nodes && r.data == st.data && r.notifications == st.notifications
  {
    var v := st.order[0];
    var unlinked := st.(order := st.order[1..], weightedSize := st.weightedSize - WeightAt(st.nodes, v));
    if v < |st.nodes| && st.nodes[v].status == Alive then
      var nd := st.nodes[v];
      unlinked.(data := st.data - {nd.key}, nodes := st.nodes[v := nd.(status := MakeDead(nd.status))],
                notifications := st.notifications + [Notification(nd.key, nd.value, Size)])
    else unlinked
  }

  /** Evicts from the head while the weighted size exceeds the maximum. */
  function Evict(st: State): (r: State)
    ensures r.weightedSize <= r.maximum || r.order == []
    ensures |r.order| <= |st.order| && r.order == st.order[|st.order| - |r.order|..]
    ensures r.weightedSize <= st.weightedSize
    ensures st.weightedSize <= st.maximum ==> r == st
    ensures SameReadSide(r, st) && r.writeBuffer == st.writeBuffer && r.maximum == st.maximum
    ensures r.ran == st.ran && |r.nodes| == |st.nodes|
    decreases |st.order|
  {
    if st.weightedSize > st.maximum && st.order != [] then
      var r := Evict(EvictHead(st));
      assert st.order[1..][|st.order| - 1 - |r.order|..] == st.order[|st.order| - |r.order|..];
      r
    else st
  }

  /** An add task links an ALIVE node that is not linked yet at the tail and counts its weight. */
  predicate AddApplies(st: State, n: Id)
  {
    n < |st.nodes| && st.nodes[n].status == Alive && n !in st.order
  }

  function Added(st: State, n: Id): State
    requires n < |st.nodes|
  {
    st.(order := st.order + [n], weightedSize := st.weightedSize + st.nodes[n].weight)
  }

  /** An update task recounts a linked node's weight and moves it to the tail. */
  predicate UpdateApplies(st: State, n: Id)
  {
    n < |st.nodes| && n in st.order
  }

  function Updated(st: State, n: Id, w: nat): State
    requires n < |st.nodes|
  {
    st.(nodes := st.nodes[n := st.nodes[n].(weight := w)],
        weightedSize := st.weightedSize - st.nodes[n].weight + w,
        order := MoveToTail(st.order, n))
  }

  /** A removal task unlinks the node, uncounts its weight, kills it and reports it
      (cause EXPLICIT) unless it is already DEAD. */
  function Removed(st: State, n: Id): State
    requires n < |st.nodes|
  {
    var nd := st.nodes[n];
    if nd.status == Dead then st
    else st.(order := Without(st.order, n),
             weightedSize := st.weightedSize - (if n in st.order then nd.weight else 0),
             nodes := st.nodes[n := nd.(status := MakeDead(nd.status))],
             notifications := st.notifications + [Notification(nd.key, nd.value, Explicit)])
  }

  /** Runs one write task; adds and updates evict afterwards. */
  function ApplyTask(st: State, t: Task): (r: State)
    ensures SameReadSide(r, st) && r.writeBuffer == st.writeBuffer && r.maximum == st.maximum
    ensures |r.nodes| == |st.nodes|
    ensures t.ProbeTask? ==> r == st.(ran := st.ran + [t.tag])
  {
    match t
    case AddTask(n) => if AddApplies(st, n) then Evict(Added(st, n)) else st
    case UpdateTask(n, w) => if UpdateApplies(st, n) then Evict(Updated(st, n, w)) else st
    case RemovalTask(n) => if n < |st.nodes| then Removed(st, n) else st
    case ProbeTask(tag) => st.(ran := st.ran + [tag])
  }

  /** Runs tasks in FIFO order. */
  function ApplyTasks(st: State, ts: seq<Task>): (r: State)
    ensures SameReadSide(r, st) && r.writeBuffer == st.writeBuffer && r.maximum == st.maximum
    ensures |r.nodes| == |st.nodes|
    decreases |ts|
  {
    if ts == [] then st else ApplyTasks(ApplyTask(st, ts[0]), ts[1..])
  }

  /** Empties the write buffer, running every queued task once, oldest first. */
  function DrainWriteBuffer(st: State): (r: State)
    ensures r.writeBuffer == [] && SameReadSide(r, st) && r.maximum == st.maximum
    ensures |r.nodes| == |st.nodes|
    ensures st.writeBuffer == [] ==> r == st
  {
    ApplyTasks(st.(writeBuffer := []), st.writeBuffer)
  }

  // ---------------------------------------------------------------------------
  // Read buffers

  /** Drains one stripe: replays its events against the access order (an event
      for an unlinked node is skipped) and remembers the write count it drained at. */
  function DrainReadBuffer(c: Config, st: State, s: nat): (r: State)
    requires ValidConfig(c) && Shaped(c, st) && s < c.numberOfReadBuffers
    ensures Shaped(c, r) && SameStore(r, st)
    ensures r.writeCount == st.writeCount && r.drainStatus == st.drainStatus && r.lockHeld == st.lockHeld
    ensures r.drainAt[s] == st.writeCount[s]
    ensures forall y :: y in r.order <==> y in st.order
    ensures Distinct(st.order) ==> Distinct(r.order) && |r.order| == |st.order|
    ensures forall s' :: 0 <= s' < c.numberOfReadBuffers && s' != s ==>
      r.readBuffers[s'] == st.readBuffers[s'] && r.readCount[s'] == st.readCount[s'] && r.drainAt[s'] == st.drainAt[s']
  {
    var d := DrainSlots(st.readBuffers[s], st.readCount[s], c.readBufferDrainThreshold);
    st.(order := ApplyAccesses(st.order, d.events),
        readBuffers := st.readBuffers[s := d.slots],
        readCount := st.readCount[s := d.readCount],
        drainAt := st.drainAt[s := st.writeCount[s]])
  }

  /** Drains the stripes `s`, `s + 1`, ... in turn. */
  function DrainReadBuffersFrom(c: Config, st: State, s: nat): (r: State)
    requires ValidConfig(c) && Shaped(c, st) && s <= c.numberOfReadBuffers
    ensures Shaped(c, r) && SameStore(r, st)
    ensures r.writeCount == st.writeCount && r.drainStatus == st.drainStatus && r.lockHeld == st.lockHeld
    ensures forall y :: y in r.order <==> y in st.order
    ensures Distinct(st.order) ==> Distinct(r.order) && |r.order| == |st.order|
    ensures forall s' :: s <= s' < c.numberOfReadBuffers ==> r.drainAt[s'] == st.writeCount[s']
    ensures forall s' :: 0 <= s' < s ==>
      r.readBuffers[s'] == st.readBuffers[s'] && r.readCount[s'] == st.readCount[s'] && r.drainAt[s'] == st.drainAt[s']
    decreases c.numberOfReadBuffers - s
  {
    if s == c.numberOfReadBuffers then st
    else DrainReadBuffersFrom(c, DrainReadBuffer(c, st, s), s + 1)
  }

  // ---------------------------------------------------------------------------
  // The drain protocol

  /** The drain proper (run under the eviction lock): the write buffer first,
      then every read stripe. */
  function DrainBuffers(c: Config, st: State): (r: State)
    requires ValidConfig(c) && Shaped(c, st)
    ensures Shaped(c, r) && r.writeBuffer == [] && r.maximum == st.maximum
    ensures r.writeCount == st.writeCount && r.drainStatus == st.drainStatus && r.lockHeld == st.lockHeld
    ensures forall s :: 0 <= s < c.numberOfReadBuffers ==> r.drainAt[s] == st.writeCount[s]
  {
    DrainReadBuffersFrom(c, DrainWriteBuffer(st), 0)
  }

  /** The non-blocking drain attempt: skipped while the eviction lock is held;
      otherwise the caller becomes PROCESSING, drains, and leaves the status IDLE. */
  function TryToDrainBuffers(c: Config, st: State): (r: State)
    requires ValidConfig(c) && Shaped(c, st)
    ensures Shaped(c, r) && r.lockHeld == st.lockHeld && r.maximum == st.maximum
    ensures st.lockHeld ==> r == st
    ensures !st.lockHeld ==> r.writeBuffer == [] && r.drainStatus == Idle
  {
    if st.lockHeld then st
    else DrainBuffers(c, st.(drainStatus := Processing)).(drainStatus := Idle)
  }

  /** Queues a write task, marks a drain as required and tries to drain. */
  function AfterWrite(c: Config, st: State, t: Task): (r: State)
    requires ValidConfig(c) && Shaped(c, st)
    ensures Shaped(c, r) && r.lockHeld == st.lockHeld && r.maximum == st.maximum
    ensures st.lockHeld ==> r == st.(writeBuffer := st.writeBuffer + [t], drainStatus := Required)
    ensures !st.lockHeld ==> r.writeBuffer == [] && r.drainStatus == Idle
  {
    TryToDrainBuffers(c, st.(writeBuffer := st.writeBuffer + [t], drainStatus := Required))
  }

  /** Records a read of node `n` in stripe `s`: the event goes to the slot the
      stripe's write count addresses and the count goes up by one. */
  function RecordRead(c: Config, st: State, n: Id, s: nat): (r: State)
    requires ValidConfig(c) && Shaped(c, st) && s < c.numberOfReadBuffers
    ensures Shaped(c, r)
  {
    var wc := st.writeCount[s];
    st.(writeCount := st.writeCount[s := wc + 1],
        readBuffers := st.readBuffers[s := Record(st.readBuffers[s], wc, n)])
  }

  /** Whether the read that saw write count `wc` on stripe `s` finds the stripe
      at or past its threshold of pending events. */
  predicate ReadBufferFull(c: Config, st: State, s: nat, wc: nat)
    requires Shaped(c, st) && s < c.numberOfReadBuffers
  {
    wc - st.drainAt[s] >= c.readBufferThreshold
  }

  /** Records the read, then drains if the status asks for it. */
  function AfterRead(c: Config, st: State, n: Id, s: nat): (r: State)
    requires ValidConfig(c) && Shaped(c, st) && s < c.numberOfReadBuffers
    ensures Shaped(c, r) && r.lockHeld == st.lockHeld && r.maximum == st.maximum
  {
    var st1 := RecordRead(c, st, n, s);
    if st1.drainStatus.ShouldDrainBuffers(!ReadBufferFull(c, st, s, st.writeCount[s]))
    then TryToDrainBuffers(c, st1) else st1
  }

  // ---------------------------------------------------------------------------
  // The map operations. Each returns the new state and the caller's result.

  /** `get`: an absent key answers nothing and records nothing. */
  function Get(c: Config, st: State, k: Key, s: nat): (r: (State, Option<Value>))
    requires ValidConfig(c) && Shaped(c, st) && Mapped(st) && s < c.numberOfReadBuffers
    ensures Shaped(c, r.0)
    ensures k !in st.data ==> r == (st, None)
    ensures k in st.data ==> r.1 == Some(st.nodes[st.data[k]].value)
  {
    if k !in st.data then (st, None)
    else var n := st.data[k]; (AfterRead(c, st, n, s), Some(st.nodes[n].value))
  }

  /** A new ALIVE node at the end of the arena, mapped from `k`. */
  function Mapping(st: State, k: Key, v: Value, w: nat): (r: State)
    ensures r.nodes == st.nodes + [Node(k, v, w, Alive)] && r.data == st.data[k := |st.nodes|]
    ensures r == st.(nodes := r.nodes, data := r.data)
  {
    st.(nodes := st.nodes + [Node(k, v, w, Alive)], data := st.data[k := |st.nodes|])
  }

  /** Links a new ALIVE node for an absent key and queues its add task. */
  function Insert(c: Config, st: State, k: Key, v: Value, w: nat): (r: State)
    requires ValidConfig(c) && Shaped(c, st)
    ensures Shaped(c, r)
  {
    AfterWrite(c, Mapping(st, k, v, w), AddTask(|st.nodes|))
  }

  /** Replaces the value of a present key in place, reports the old value with
      cause REPLACED and queues an update task. */
  function Overwrite(c: Config, st: State, k: Key, v: Value, w: nat): (r: State)
    requires ValidConfig(c) && Shaped(c, st) && Mapped(st) && k in st.data
    ensures Shaped(c, r)
  {
    var n := st.data[k];
    var st1 := AfterWrite(c, Revalued(st, n, v), UpdateTask(n, w));
    st1.(notifications := st1.notifications + [Notification(k, st.nodes[n].value, Replaced)])
  }

  /** Node `n` with its value replaced in place. */
  function Revalued(st: State, n: Id, v: Value): (r: State)
    requires n < |st.nodes|
    ensures |r.nodes| == |st.nodes| && r.nodes[n] == st.nodes[n].(value := v)
    ensures forall i :: 0 <= i < |st.nodes| && i != n ==> r.nodes[i] == st.nodes[i]
    ensures r == st.(nodes := r.nodes)
  {
    st.(nodes := st.nodes[n := st.nodes[n].(value := v)])
  }

  /** `put`: answers the previous value, if any. */
  function Put(c: Config, st: State, k: Key, v: Value, w: nat): (r: (State, Option<Value>))
    requires ValidConfig(c) && Shaped(c, st) && Mapped(st)
    ensures Shaped(c, r.0)
    ensures k !in st.data ==> r.1 == None
    ensures k in st.data ==> r.1 == Some(st.nodes[st.data[k]].value)
  {
    if k !in st.data then (Insert(c, st, k, v, w), None)
    else (Overwrite(c, st, k, v, w), Some(st.nodes[st.data[k]].value))
  }

  /** `putIfAbsent`: a present key is only read (in stripe `s`), not written. */
  function PutIfAbsent(c: Config, st: State, k: Key, v: Value, w: nat, s: nat): (r: (State, Option<Value>))
    requires ValidConfig(c) && Shaped(c, st) && Mapped(st) && s < c.numberOfReadBuffers
    ensures Shaped(c, r.0)
    ensures k !in st.data ==> r.1 == None
    ensures k in st.data ==> r == (AfterRead(c, st, st.data[k], s), Some(st.nodes[st.data[k]].value))
  {
    if k !in st.data then (Insert(c, st, k, v, w), None)
    else var n := st.data[k]; (AfterRead(c, st, n, s), Some(st.nodes[n].value))
  }

  /** `replace(key, value)`: only a present key is written. */
  function Replace(c: Config, st: State, k: Key, v: Value, w: nat): (r: (State, Option<Value>))
    requires ValidConfig(c) && Shaped(c, st) && Mapped(st)
    ensures Shaped(c, r.0)
    ensures k !in st.data ==> r == (st, None)
    ensures k in st.data ==> r.1 == Some(st.nodes[st.data[k]].value)
  {
    if k !in st.data then (st, None)
    else (Overwrite(c, st, k, v, w), Some(st.nodes[st.data[k]].value))
  }

  /** `replace(key, oldValue, newValue)`: written only when the current value is `expected`. */
  function ReplaceConditionally(c: Config, st: State, k: Key, expected: Value, v: Value, w: nat): (r: (State, bool))
    requires ValidConfig(c) && Shaped(c, st) && Mapped(st)
    ensures Shaped(c, r.0)
    ensures r.1 <==> k in st.data && st.nodes[st.data[k]].value == expected
    ensures !r.1 ==> r.0 == st
  {
    if k !in st.data || st.nodes[st.data[k]].value != expected then (st, false)
    else (Overwrite(c, st, k, v, w), true)
  }

  /** `remove`: the key leaves the map at once and its node is RETIRED; the
      queued removal task unlinks and kills it. */
  function Remove(c: Config, st: State, k: Key): (r: (State, Option<Value>))
    requires ValidConfig(c) && Shaped(c, st) && Mapped(st)
    ensures Shaped(c, r.0)
    ensures k !in st.data ==> r == (st, None)
    ensures k in st.data ==> r.1 == Some(st.nodes[st.data[k]].value)
  {
    if k !in st.data then (st, None)
    else
      var n := st.data[k];
      (AfterWrite(c, Unmapping(st, k), RemovalTask(n)), Some(st.nodes[n].value))
  }

  /** `k` leaves the map and its node is retired. */
  function Unmapping(st: State, k: Key): (r: State)
    requires Mapped(st) && k in st.data
    ensures r.data == st.data - {k} && |r.nodes| == |st.nodes|
    ensures r.nodes[st.data[k]] == st.nodes[st.data[k]].(status := MakeRetired(st.nodes[st.data[k]].status))
    ensures forall i :: 0 <= i < |st.nodes| && i != st.data[k] ==> r.nodes[i] == st.nodes[i]
    ensures r == st.(data := r.data, nodes := r.nodes)
  {
    var n := st.data[k];
    st.(data := st.data - {k}, nodes := st.nodes[n := st.nodes[n].(status := MakeRetired(st.nodes[n].status))])
  }

  /** A node made by the node factory that is not put into the map. */
  function NewNode(st: State, k: Key, v: Value, w: nat): (r: (State, Id))
    ensures r.1 == |st.nodes| && r.0.nodes == st.nodes + [Node(k, v, w, Alive)]
    ensures r.0 == st.(nodes := r.0.nodes)
  {
    (st.(nodes := st.nodes + [Node(k, v, w, Alive)]), |st.nodes|)
  }
}
