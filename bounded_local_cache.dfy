/** The engine as an object whose fields the operations update in place. The
    names follow the engine's own fields: `data`, `accessOrderDeque`,
    `writeBuffer`, `readBuffers`, `readBufferWriteCount`, `readBufferReadCount`,
    `readBufferDrainAtWriteCount`, `drainStatus`, `weightedSize` and the
    eviction lock. Every method is proved to change the fields exactly as the
    matching function of CacheModel says, and to keep the invariant. */
module BoundedCache {
  import opened NodeStatus
  import opened AccessOrder
  import opened ReadBuffer
  import opened CacheModel
  import opened CacheInvariant

  /** A signed 64-bit integer, the width of the weighted-size counter. Every
      update of the counter is checked to stay in range. */
  newtype Long = x: int | -0x8000_0000_0000_0000 <= x <= LONG_MAX

  class BoundedLocalCache {
    const config: Config
    const weigher: (Key, Value) -> nat

    var data: map<Key, Id>
    var nodes: seq<Node>
    var accessOrderDeque: seq<Id>
    var writeBuffer: seq<Task>
    var weightedSize: Long
    var maximum: nat
    var notifications: seq<Notification>
    var ran: seq<nat>

    /** `readBuffers[s, j]` is slot `j` of stripe `s`. */
    const readBuffers: array2<Slot>
    const readBufferWriteCount: array<nat>
    const readBufferReadCount: array<nat>
    const readBufferDrainAtWriteCount: array<nat>

    var drainStatus: DrainStatus
    var evictionLockHeld: bool

    ghost function Row(s: nat): seq<Slot>
      reads readBuffers
      requires s < readBuffers.Length0
    {
      seq(readBuffers.Length1, j requires 0 <= j < readBuffers.Length1 reads readBuffers => readBuffers[s, j])
    }

    ghost function Rows(): seq<seq<Slot>>
      reads readBuffers
    {
      seq(readBuffers.Length0, s requires 0 <= s < readBuffers.Length0 reads readBuffers => Row(s))
    }

    ghost function WriteCounts(): seq<nat>
      reads readBufferWriteCount
    {
      readBufferWriteCount[..]
    }

    ghost function ReadCounts(): seq<nat>
      reads readBufferReadCount
    {
      readBufferReadCount[..]
    }

    ghost function DrainCounts(): seq<nat>
      reads readBufferDrainAtWriteCount
    {
      readBufferDrainAtWriteCount[..]
    }

    /** The engine's state as a value. */
    ghost function Snapshot(): State
      reads this, readBuffers, readBufferWriteCount, readBufferReadCount, readBufferDrainAtWriteCount
    {
      State(data, nodes, accessOrderDeque, writeBuffer, weightedSize as int, maximum, notifications, ran,
            Rows(), WriteCounts(), ReadCounts(), DrainCounts(), drainStatus, evictionLockHeld)
    }

    /** The buffers have the configured shape and are separate objects. */
    ghost predicate Wired()
      reads this
    {
      && ValidConfig(config)
      && readBuffers.Length0 == config.numberOfReadBuffers
      && readBuffers.Length1 == config.readBufferSize
      && readBufferWriteCount.Length == config.numberOfReadBuffers
      && readBufferReadCount.Length == config.numberOfReadBuffers
      && readBufferDrainAtWriteCount.Length == config.numberOfReadBuffers
      && readBufferWriteCount != readBufferReadCount
      && readBufferWriteCount != readBufferDrainAtWriteCount
      && readBufferReadCount != readBufferDrainAtWriteCount
    }

    ghost predicate Valid()
      reads this, readBuffers, readBufferWriteCount, readBufferReadCount, readBufferDrainAtWriteCount
    {
      && Wired()
      && Inv(config, Snapshot())
      && forall k, v :: weigher(k, v) <= config.maximumWeight
    }

    constructor (config: Config, maximumWeight: nat, weigher: (Key, Value) -> nat)
      requires ValidConfig(config) && forall k, v :: weigher(k, v) <= config.maximumWeight
      ensures Valid() && Snapshot() == Initial(config, maximumWeight)
      ensures this.config == config && this.weigher == weigher
      ensures fresh(readBuffers) && fresh(readBufferWriteCount) && fresh(readBufferReadCount)
      ensures fresh(readBufferDrainAtWriteCount)
    {
      this.config := config;
      this.weigher := weigher;
      data := map[];
      nodes := [];
      accessOrderDeque := [];
      writeBuffer := [];
      weightedSize := 0;
      maximum := if maximumWeight < config.maximumCapacity then maximumWeight else config.maximumCapacity;
      notifications := [];
      ran := [];
      readBuffers := new Slot[config.numberOfReadBuffers, config.readBufferSize]((_, _) => Empty);
      readBufferWriteCount := new nat[config.numberOfReadBuffers](_ => 0);
      readBufferReadCount := new nat[config.numberOfReadBuffers](_ => 0);
      readBufferDrainAtWriteCount := new nat[config.numberOfReadBuffers](_ => 0);
      drainStatus := Idle;
      evictionLockHeld := false;
      new;
      var init := Initial(config, maximumWeight);
      assert Rows() == init.readBuffers by {
        forall s | 0 <= s < config.numberOfReadBuffers ensures Row(s) == init.readBuffers[s] {
          assert forall j :: 0 <= j < config.readBufferSize ==> Row(s)[j] == Empty;
        }
      }
      assert WriteCounts() == init.writeCount;
      assert ReadCounts() == init.readCount;
      assert DrainCounts() == init.drainAt;
      InitialInv(config, maximumWeight);
    }

    // -------------------------------------------------------------------------
    // Eviction and the write buffer

    /** Evicts the least recently used node. */
    method EvictHead()
      requires Wired() && accessOrderDeque != []
      requires WeightAt(nodes, accessOrderDeque[0]) <= weightedSize as int
      modifies this
      ensures Wired() && Snapshot() == CacheModel.EvictHead(old(Snapshot()))
    {
      var v := accessOrderDeque[0];
      accessOrderDeque := accessOrderDeque[1..];
      weightedSize := weightedSize - WeightAt(nodes, v) as Long;
      if v < |nodes| && nodes[v].status == Alive {
        var nd := nodes[v];
        data := data - {nd.key};
        nodes := nodes[v := nd.(status := MakeDead(nd.status))];
        notifications := notifications + [Notification(nd.key, nd.value, RemovalCause.Size)];
      }
    }

    /** Evicts from the head of the access order while over the maximum. */
    method Evict(ghost pending: seq<Task>)
      requires Wired() && Core(config, Snapshot(), pending)
      modifies this
      ensures Wired() && Core(config, Snapshot(), pending)
      ensures Snapshot() == CacheModel.Evict(old(Snapshot()))
    {
      while weightedSize as int > maximum && accessOrderDeque != []
        invariant Wired() && Core(config, Snapshot(), pending)
        invariant CacheModel.Evict(Snapshot()) == CacheModel.Evict(old(Snapshot()))
        decreases |accessOrderDeque|
      {
        EvictHeadCore(config, Snapshot(), pending);
        WeightAtMost(nodes, accessOrderDeque, accessOrderDeque[0]);
        EvictHead();
      }
    }

    /** Links a node at the tail and counts its weight. */
    method Link(n: Id)
      requires Wired() && n < |nodes| && 0 <= weightedSize as int && weightedSize as int + nodes[n].weight <= LONG_MAX
      modifies this
      ensures Wired() && Snapshot() == Added(old(Snapshot()), n)
    {
      accessOrderDeque := accessOrderDeque + [n];
      weightedSize := weightedSize + nodes[n].weight as Long;
    }

    /** Recounts a linked node with its new weight and moves it to the tail. */
    method Reweigh(n: Id, w: nat)
      requires Wired() && n < |nodes| && nodes[n].weight <= weightedSize as int
      requires weightedSize as int - nodes[n].weight + w <= LONG_MAX
      modifies this
      ensures Wired() && Snapshot() == Updated(old(Snapshot()), n, w)
    {
      var oldWeight := nodes[n].weight;
      nodes := nodes[n := nodes[n].(weight := w)];
      weightedSize := weightedSize - oldWeight as Long + w as Long;
      accessOrderDeque := MoveToTail(accessOrderDeque, n);
    }

    /** Unlinks a node that is not DEAD yet, kills it and reports it. */
    method Unlink(n: Id)
      requires Wired() && n < |nodes| && nodes[n].status != Dead
      requires n in accessOrderDeque ==> nodes[n].weight <= weightedSize as int
      modifies this
      ensures Wired() && Snapshot() == Removed(old(Snapshot()), n)
    {
      var nd := nodes[n];
      if n in accessOrderDeque {
        weightedSize := weightedSize - nd.weight as Long;
      }
      accessOrderDeque := Without(accessOrderDeque, n);
      nodes := nodes[n := nd.(status := MakeDead(nd.status))];
      notifications := notifications + [Notification(nd.key, nd.value, Explicit)];
    }

    /** Runs one write task against the access order. */
    method RunTask(t: Task, ghost rest: seq<Task>)
      requires Wired() && InvPending(config, Snapshot(), [t] + rest)
      modifies this
      ensures Wired() && InvPending(config, Snapshot(), rest)
      ensures Snapshot() == ApplyTask(old(Snapshot()), t)
    {
      ghost var st := Snapshot();
      CounterInLongRange(config, st, t, rest);
      ApplyTaskInv(config, st, t, rest);
      match t
      case AddTask(n) =>
        if n < |nodes| && nodes[n].status == Alive && n !in accessOrderDeque {
          AddedCore(config, st, n, rest);
          Link(n);
          Evict(rest);
        }
      case UpdateTask(n, w) =>
        if n < |nodes| && n in accessOrderDeque {
          UpdatedCore(config, st, n, w, rest);
          WeightAtMost(nodes, accessOrderDeque, n);
          Reweigh(n, w);
          Evict(rest);
        }
      case RemovalTask(n) =>
        if n < |nodes| && nodes[n].status != Dead {
          if n in accessOrderDeque {
            WeightAtMost(nodes, accessOrderDeque, n);
          }
          Unlink(n);
        }
      case ProbeTask(tag) =>
        ran := ran + [tag];
    }

    /** Takes the queued tasks and runs each once, oldest first. */
    method DrainWriteBuffer()
      requires Wired() && Inv(config, Snapshot())
      modifies this
      ensures Wired() && Inv(config, Snapshot())
      ensures Snapshot() == CacheModel.DrainWriteBuffer(old(Snapshot()))
    {
      ghost var goal := CacheModel.DrainWriteBuffer(Snapshot());
      DrainWriteBufferInv(config, Snapshot());
      TakenPending(config, Snapshot());
      var tasks := writeBuffer;
      TakeWriteBuffer();
      var i := 0;
      while i < |tasks|
        invariant 0 <= i <= |tasks| && Wired() && writeBuffer == []
        invariant InvPending(config, Snapshot(), tasks[i..])
        invariant ApplyTasks(Snapshot(), tasks[i..]) == goal
      {
        var next := i + 1;
        TasksSplit(tasks, i, next);
        RunTask(tasks[i], tasks[next..]);
        i := next;
      }
    }

    /** Empties the write buffer. */
    method TakeWriteBuffer()
      modifies this`writeBuffer
      ensures Snapshot() == old(Snapshot()).(writeBuffer := [])
    {
      writeBuffer := [];
    }
  
    // -------------------------------------------------------------------------
    // The read buffers

    /** Overwrites one slot of one stripe. */
    method SetSlot(s: nat, j: nat, x: Slot)
      requires Wired() && s < readBuffers.Length0 && j < readBuffers.Length1
      modifies readBuffers
      ensures Row(s) == old(Row(s))[j := x]
      ensures Rows() == old(Rows())[s := old(Row(s))[j := x]]
    {
      ghost var before := Rows();
      readBuffers[s, j] := x;
      assert Row(s) == before[s][j := x];
      forall s' | 0 <= s' < readBuffers.Length0 && s' != s ensures Row(s') == before[s'] {
        assert forall j' :: 0 <= j' < readBuffers.Length1 ==> Row(s')[j'] == before[s'][j'];
      }
    }

    /** Drains one stripe: takes its events, oldest first, until it meets an
        empty slot or has taken the drain threshold's worth, clearing each slot
        it takes and moving each event's node to the tail. */
    method DrainStripe(s: nat)
      requires Wired() && s < config.numberOfReadBuffers
      modifies this`accessOrderDeque, readBuffers, readBufferReadCount
      ensures var d := DrainSlots(old(Row(s)), old(readBufferReadCount[s]), config.readBufferDrainThreshold);
        && Rows() == old(Rows())[s := d.slots] && ReadCounts() == old(ReadCounts())[s := d.readCount]
        && accessOrderDeque == ApplyAccesses(old(accessOrderDeque), d.events)
    {
      ghost var rows := Rows();
      ghost var order := accessOrderDeque;
      ghost var row := Row(s);
      var rc := readBufferReadCount[s];
      var budget := config.readBufferDrainThreshold;
      ghost var goal := DrainSlots(row, rc, budget);
      ghost var consumed: seq<Id> := [];
      var done := false;
      var deque := accessOrderDeque;
      while budget > 0 && !done
        modifies readBuffers
        invariant |row| == readBuffers.Length1 && Rows() == rows[s := row]
        invariant deque == ApplyAccesses(order, consumed)
        invariant Owed(goal, consumed, row, rc, budget)
        invariant done ==> DrainSlots(row, rc, budget) == StripeDrain(row, rc, [])
        decreases budget, if done then 0 else 1
      {
        var j := SlotOf(rc, readBuffers.Length1);
        var slot := readBuffers[s, j];
        assert slot == Rows()[s][j];
        match slot
        case Empty =>
          done := true;
        case Full(n) =>
          ApplyAccessesAppend(order, consumed, n);
          deque := MoveToTail(deque, n);
          consumed, row, rc, budget := TakeSlot(s, j, n, rows, goal, consumed, row, rc, budget);
      }
      assert DrainSlots(row, rc, budget).events == [];
      assert goal.events == consumed;
      accessOrderDeque := deque;
      readBufferReadCount[s] := rc;
      assert ReadCounts() == old(ReadCounts())[s := rc];
    }

    /** Takes event `n` from slot `j` of stripe `s`, the read position, clears
        the slot and moves the read position on by one, with one event less of
        budget left. */
    method TakeSlot(s: nat, j: nat, n: Id, ghost rows: seq<seq<Slot>>, ghost goal: StripeDrain,
                    ghost consumed: seq<Id>, ghost row: seq<Slot>, rc: nat, budget: nat)
      returns (ghost consumed': seq<Id>, ghost row': seq<Slot>, rc': nat, budget': nat)
      requires Wired() && s < readBuffers.Length0 == |rows| && |row| == readBuffers.Length1
      requires Rows() == rows[s := row]
      requires budget > 0 && Owed(goal, consumed, row, rc, budget)
      requires j == SlotOf(rc, |row|) && row[j] == Full(n)
      modifies readBuffers
      ensures |row'| == readBuffers.Length1 && Rows() == rows[s := row']
      ensures consumed' == consumed + [n] && rc' == rc + 1 && budget' < budget
      ensures Owed(goal, consumed', row', rc', budget')
    {
      assert Row(s) == Rows()[s] == row;
      SetSlot(s, j, Empty);
      StepDrain(goal, consumed, row, rc, budget, j, n);
      consumed', row', rc', budget' := consumed + [n], row[j := Empty], rc + 1, budget - 1;
    }

    /** Drains stripe `s` and remembers the write count it drained at. */
    method DrainReadBuffer(s: nat)
      requires Wired() && s < config.numberOfReadBuffers
      modifies this, readBuffers, readBufferReadCount, readBufferDrainAtWriteCount
      ensures Wired() && Snapshot() == CacheModel.DrainReadBuffer(config, old(Snapshot()), s)
    {
      ghost var st := Snapshot();
      DrainStripe(s);
      readBufferDrainAtWriteCount[s] := readBufferWriteCount[s];
      assert DrainCounts() == st.drainAt[s := st.writeCount[s]];
    }

    /** Drains every stripe, lowest index first. */
    method DrainReadBuffers()
      requires Wired()
      modifies this, readBuffers, readBufferReadCount, readBufferDrainAtWriteCount
      ensures Wired() && Snapshot() == DrainReadBuffersFrom(config, old(Snapshot()), 0)
    {
      ghost var goal := DrainReadBuffersFrom(config, Snapshot(), 0);
      var s := 0;
      while s < readBuffers.Length0
        invariant Wired() && 0 <= s <= config.numberOfReadBuffers
        invariant DrainReadBuffersFrom(config, Snapshot(), s) == goal
      {
        DrainReadBuffer(s);
        s := s + 1;
      }
    }

    // -------------------------------------------------------------------------
    // The drain protocol

    /** The drain proper: the write buffer first, then every read stripe. */
    method DrainBuffers()
      requires Valid()
      modifies this, readBuffers, readBufferReadCount, readBufferDrainAtWriteCount
      ensures Valid() && Snapshot() == CacheModel.DrainBuffers(config, old(Snapshot()))
    {
      DrainBuffersInv(config, Snapshot());
      DrainWriteBuffer();
      DrainReadBuffers();
    }

    /** Drains unless the eviction lock is held by someone else; a drain runs
        as PROCESSING and leaves the status IDLE. */
    method TryToDrainBuffers()
      requires Valid()
      modifies this, readBuffers, readBufferReadCount, readBufferDrainAtWriteCount
      ensures Valid() && Snapshot() == CacheModel.TryToDrainBuffers(config, old(Snapshot()))
    {
      if !evictionLockHeld {
        ghost var st := Snapshot();
        StatusInv(config, st, st.writeBuffer, Processing);
        SetDrainStatus(Processing);
        assert Snapshot() == st.(drainStatus := Processing);
        DrainBuffers();
        ghost var st1 := Snapshot();
        StatusInv(config, st1, st1.writeBuffer, Idle);
        SetDrainStatus(Idle);
        assert Snapshot() == st1.(drainStatus := Idle);
      }
    }

    method SetDrainStatus(x: DrainStatus)
      modifies this`drainStatus
      ensures drainStatus == x
    {
      drainStatus := x;
    }

    /** Queues a write task, marks a drain as required and tries to drain. */
    method AfterWrite(t: Task)
      requires Wired() && InvPending(config, Snapshot(), writeBuffer + [t])
      requires forall k, v :: weigher(k, v) <= config.maximumWeight
      modifies this, readBuffers, readBufferReadCount, readBufferDrainAtWriteCount
      ensures Valid() && Snapshot() == CacheModel.AfterWrite(config, old(Snapshot()), t)
    {
      QueuedInv(config, Snapshot(), t, Required);
      QueueTask(t);
      TryToDrainBuffers();
    }

    /** Queues a write task and marks a drain as required. */
    method QueueTask(t: Task)
      modifies this`writeBuffer, this`drainStatus
      ensures Snapshot() == old(Snapshot()).(writeBuffer := old(writeBuffer) + [t], drainStatus := Required)
    {
      writeBuffer := writeBuffer + [t];
      drainStatus := Required;
    }

    /** Records a read of node `n` in stripe `s` and answers the write count
        the read saw. */
    method RecordRead(n: Id, s: nat) returns (writeCount: nat)
      requires Wired() && s < config.numberOfReadBuffers
      modifies readBuffers, readBufferWriteCount
      ensures writeCount == old(readBufferWriteCount[s])
      ensures Wired() && Snapshot() == CacheModel.RecordRead(config, old(Snapshot()), n, s)
    {
      ghost var st := Snapshot();
      writeCount := readBufferWriteCount[s];
      readBufferWriteCount[s] := writeCount + 1;
      SetSlot(s, SlotOf(writeCount, readBuffers.Length1), Full(n));
      assert WriteCounts() == st.writeCount[s := writeCount + 1];
    }

    /** Records the read, then drains if the status asks for it: always when a
        drain is REQUIRED, and when IDLE only once the stripe holds at least
        the threshold's worth of events since its last drain. */
    method AfterRead(n: Id, s: nat)
      requires Valid() && s < config.numberOfReadBuffers
      modifies this, readBuffers, readBufferWriteCount, readBufferReadCount, readBufferDrainAtWriteCount
      ensures Valid() && Snapshot() == CacheModel.AfterRead(config, old(Snapshot()), n, s)
    {
      AfterReadInv(config, Snapshot(), n, s);
      RecordReadInv(config, Snapshot(), n, s);
      var writeCount := RecordRead(n, s);
      var pending := writeCount as int - readBufferDrainAtWriteCount[s] as int;
      var delayable := pending < config.readBufferThreshold;
      if drainStatus.ShouldDrainBuffers(delayable) {
        TryToDrainBuffers();
      }
    }

    // -------------------------------------------------------------------------
    // The map operations

    /** `get`: answers the value and records the read; an absent key records nothing. */
    method Get(k: Key, s: nat) returns (r: Option<Value>)
      requires Valid() && s < config.numberOfReadBuffers
      modifies this, readBuffers, readBufferWriteCount, readBufferReadCount, readBufferDrainAtWriteCount
      ensures Valid() && (Snapshot(), r) == CacheModel.Get(config, old(Snapshot()), k, s)
    {
      if k !in data {
        return None;
      }
      var n := data[k];
      r := Some(nodes[n].value);
      AfterRead(n, s);
    }

    /** Maps an absent key to a new node and queues its add task. */
    method Insert(k: Key, v: Value)
      requires Valid() && k !in data
      modifies this, readBuffers, readBufferReadCount, readBufferDrainAtWriteCount
      ensures Valid() && Snapshot() == CacheModel.Insert(config, old(Snapshot()), k, v, weigher(k, v))
    {
      MappingPending(config, Snapshot(), k, v, weigher(k, v));
      var n := |nodes|;
      Map(k, v, weigher(k, v));
      AfterWrite(AddTask(n));
    }

    /** Maps `k` to a new ALIVE node at the end of the arena. */
    method Map(k: Key, v: Value, w: nat)
      modifies this`nodes, this`data
      ensures Snapshot() == Mapping(old(Snapshot()), k, v, w)
    {
      data := data[k := |nodes|];
      nodes := nodes + [Node(k, v, w, Alive)];
    }

    /** Replaces a present key's value in place, queues the reweighing and
        reports the old value as REPLACED. */
    method Overwrite(k: Key, v: Value)
      requires Valid() && k in data
      modifies this, readBuffers, readBufferReadCount, readBufferDrainAtWriteCount
      ensures Valid() && Snapshot() == CacheModel.Overwrite(config, old(Snapshot()), k, v, weigher(k, v))
    {
      var n := data[k];
      var previous := nodes[n].value;
      RevaluedPending(config, Snapshot(), n, v, weigher(k, v));
      OverwriteInv(config, Snapshot(), k, v, weigher(k, v));
      Revalue(n, v);
      AfterWrite(UpdateTask(n, weigher(k, v)));
      Notify(Notification(k, previous, Replaced));
    }

    /** Replaces the value of node `n` in place. */
    method Revalue(n: Id, v: Value)
      requires n < |nodes|
      modifies this`nodes
      ensures Snapshot() == Revalued(old(Snapshot()), n, v)
    {
      nodes := nodes[n := nodes[n].(value := v)];
    }

    /** Reports a removal to the listener. */
    method Notify(x: Notification)
      modifies this`notifications
      ensures Snapshot() == old(Snapshot()).(notifications := old(notifications) + [x])
    {
      notifications := notifications + [x];
    }

    /** `put`: answers the previous value, if any. */
    method Put(k: Key, v: Value) returns (r: Option<Value>)
      requires Valid()
      modifies this, readBuffers, readBufferReadCount, readBufferDrainAtWriteCount
      ensures Valid() && (Snapshot(), r) == CacheModel.Put(config, old(Snapshot()), k, v, weigher(k, v))
    {
      if k in data {
        r := Some(nodes[data[k]].value);
        Overwrite(k, v);
      } else {
        r := None;
        Insert(k, v);
      }
    }

    /** `putIfAbsent`: a present key is read in stripe `s`, not written. */
    method PutIfAbsent(k: Key, v: Value, s: nat) returns (r: Option<Value>)
      requires Valid() && s < config.numberOfReadBuffers
      modifies this, readBuffers, readBufferWriteCount, readBufferReadCount, readBufferDrainAtWriteCount
      ensures Valid() && (Snapshot(), r) == CacheModel.PutIfAbsent(config, old(Snapshot()), k, v, weigher(k, v), s)
    {
      if k in data {
        var n := data[k];
        r := Some(nodes[n].value);
        AfterRead(n, s);
      } else {
        r := None;
        Insert(k, v);
      }
    }

    /** `replace(key, value)`: only a present key is written. */
    method Replace(k: Key, v: Value) returns (r: Option<Value>)
      requires Valid()
      modifies this, readBuffers, readBufferReadCount, readBufferDrainAtWriteCount
      ensures Valid() && (Snapshot(), r) == CacheModel.Replace(config, old(Snapshot()), k, v, weigher(k, v))
    {
      if k !in data {
        return None;
      }
      r := Some(nodes[data[k]].value);
      Overwrite(k, v);
    }

    /** `replace(key, oldValue, newValue)`: written only when the current value is `expected`. */
    method ReplaceConditionally(k: Key, expected: Value, v: Value) returns (replaced: bool)
      requires Valid()
      modifies this, readBuffers, readBufferReadCount, readBufferDrainAtWriteCount
      ensures Valid()
      ensures (Snapshot(), replaced) == CacheModel.ReplaceConditionally(config, old(Snapshot()), k, expected, v, weigher(k, v))
    {
      if k !in data || nodes[data[k]].value != expected {
        return false;
      }
      Overwrite(k, v);
      replaced := true;
    }

    /** `remove`: the key leaves the map at once and its node is retired; the
        queued removal task unlinks it. */
    method Remove(k: Key) returns (r: Option<Value>)
      requires Valid()
      modifies this, readBuffers, readBufferReadCount, readBufferDrainAtWriteCount
      ensures Valid() && (Snapshot(), r) == CacheModel.Remove(config, old(Snapshot()), k)
    {
      if k !in data {
        return None;
      }
      var n := data[k];
      r := Some(nodes[n].value);
      UnmappingPending(config, Snapshot(), k);
      Unmap(k);
      AfterWrite(RemovalTask(n));
    }

    /** `k` leaves the map and its node is retired. */
    method Unmap(k: Key)
      requires k in data && data[k] < |nodes|
      modifies this`data, this`nodes
      ensures Snapshot() == old(Snapshot()).(data := old(data) - {k}, nodes := old(nodes)[old(data)[k] := old(nodes)[old(data)[k]].(status := MakeRetired(old(nodes)[old(data)[k]].status))])
    {
      var n := data[k];
      nodes := nodes[n := nodes[n].(status := MakeRetired(nodes[n].status))];
      data := data - {k};
    }

    /** The node factory: a node that is not put into the map. */
    method NewNode(k: Key, v: Value) returns (n: Id)
      requires Valid()
      modifies this
      ensures Valid() && (Snapshot(), n) == CacheModel.NewNode(old(Snapshot()), k, v, weigher(k, v))
    {
      NewNodeInv(config, Snapshot(), k, v, weigher(k, v));
      n := |nodes|;
      nodes := nodes + [Node(k, v, weigher(k, v), Alive)];
    }

    // -------------------------------------------------------------------------
    // Observers

    /** `containsKey`: whether the key is mapped. */
    method ContainsKey(k: Key) returns (present: bool)
      requires Valid()
      ensures present <==> k in Snapshot().data
    {
      present := k in data;
    }

    /** `size()`: the number of mapped keys. */
    method Size() returns (n: nat)
      requires Valid()
      ensures n == |Snapshot().data|
    {
      n := |data|;
    }

    /** `keySet()`. */
    method KeySet() returns (keys: set<Key>)
      requires Valid()
      ensures keys == Snapshot().data.Keys
    {
      keys := data.Keys;
    }

    /** `weightedSize()`. */
    method WeightedSize() returns (w: int)
      requires Valid()
      ensures w == Snapshot().weightedSize && 0 <= w <= Snapshot().maximum
    {
      w := weightedSize as int;
    }

    /** The keys along the access order, head first. */
    method EvictionOrder() returns (keys: seq<Key>)
      requires Valid()
      ensures keys == KeysOf(Snapshot().nodes, Snapshot().order)
    {
      keys := [];
      var i := 0;
      while i < |accessOrderDeque|
        invariant 0 <= i <= |accessOrderDeque|
        invariant keys == KeysOf(nodes, accessOrderDeque[..i])
      {
        assert accessOrderDeque[i] in accessOrderDeque;
        keys := keys + [nodes[accessOrderDeque[i]].key];
        i := i + 1;
      }
      assert accessOrderDeque[..i] == accessOrderDeque;
    }

    /** The head of the access order (`peek`), if any. */
    method PeekFirst() returns (n: Option<Id>)
      requires Valid()
      ensures n == (if Snapshot().order == [] then None else Some(Snapshot().order[0]))
    {
      n := if accessOrderDeque == [] then None else Some(accessOrderDeque[0]);
    }

    /** The tail of the access order (`peekLast`), if any. */
    method PeekLast() returns (n: Option<Id>)
      requires Valid()
      ensures n == (if Snapshot().order == [] then None else Some(Snapshot().order[|Snapshot().order| - 1]))
    {
      n := if accessOrderDeque == [] then None else Some(accessOrderDeque[|accessOrderDeque| - 1]);
    }

    /** The status of a node. */
    method StatusOf(n: Id) returns (status: Status)
      requires Valid() && n < |nodes|
      ensures status == Snapshot().nodes[n].status
    {
      status := nodes[n].status;
    }

    /** The number of occupied slots of stripe `s`. */
    method PendingReads(s: nat) returns (pending: nat)
      requires Wired() && s < config.numberOfReadBuffers
      ensures pending == CountFull(Snapshot().readBuffers[s])
    {
      ghost var row := Row(s);
      pending := 0;
      var j := 0;
      while j < readBuffers.Length1
        invariant 0 <= j <= readBuffers.Length1 == |row|
        invariant pending + CountFull(row[j..]) == CountFull(row)
      {
        assert row[j..][1..] == row[j + 1..];
        if readBuffers[s, j].Full? {
          pending := pending + 1;
        }
        j := j + 1;
      }
    }

    // -------------------------------------------------------------------------
    // Hooks the scenarios use on the engine's fields

    /** Sets the weighted-size counter from outside, to a value between the
        weight of the linked entries and the maximum. */
    method SetWeightedSize(w: Long)
      requires Valid() && WeightOf(nodes, accessOrderDeque) <= w as int <= maximum
      modifies this`weightedSize
      ensures Valid() && Snapshot() == old(Snapshot()).(weightedSize := w as int)
    {
      CounterSetInv(config, Snapshot(), w as int);
      weightedSize := w;
    }

    /** Sets the write count of stripe `s` from outside. */
    method SetReadBufferWriteCount(s: nat, count: nat)
      requires Valid() && s < config.numberOfReadBuffers
      modifies readBufferWriteCount
      ensures Valid() && Snapshot() == old(Snapshot()).(writeCount := old(Snapshot()).writeCount[s := count])
    {
      ghost var st := Snapshot();
      readBufferWriteCount[s] := count;
      assert WriteCounts() == st.writeCount[s := count];
      SameStoreInv(config, st, Snapshot());
    }

    /** Takes the eviction lock; a drain attempt is skipped while it is held. */
    method Lock()
      requires Valid() && !evictionLockHeld
      modifies this`evictionLockHeld
      ensures Valid() && Snapshot() == old(Snapshot()).(lockHeld := true)
    {
      SameStoreInv(config, Snapshot(), Snapshot().(lockHeld := true));
      evictionLockHeld := true;
    }

    method Unlock()
      requires Valid() && evictionLockHeld
      modifies this`evictionLockHeld
      ensures Valid() && Snapshot() == old(Snapshot()).(lockHeld := false)
    {
      SameStoreInv(config, Snapshot(), Snapshot().(lockHeld := false));
      evictionLockHeld := false;
    }
  }
}
